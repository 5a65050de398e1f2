/** What binding tables say about the examples a clause covers, and why literals
    without coverage can be pruned for good (learner/QuickFoil.cpp,
    learner/CandidateLiteralEnumerator.cpp). */
module ClauseCoverage {
  import opened RadixPartition
  import opened Tallies
  import opened Bindings
  import opened JoinMeaning
  import opened MultiColumnJoin
  import opened BindingTables
  import opened Examples
  import opened FoilClauses

  /** Row e of one table of examples occurs in another. */
  ghost predicate OccursIn(row: seq<Value>, examples: seq<seq<Value>>) {
    exists e :: 0 <= e < Rows(examples) && RowAt(examples, e) == row
  }

  ghost predicate Within(small: seq<seq<Value>>, large: seq<seq<Value>>) {
    forall e | 0 <= e < Rows(small) :: OccursIn(RowAt(small, e), large)
  }

  lemma TableShape(bg: Background, examples: seq<seq<Value>>, c: Clause, columns: seq<seq<Value>>, choices: seq<Choice>)
    requires c.Valid() && BindingTableOf(bg, examples, c, columns, choices)
    ensures columns != [] && Rows(columns) == |choices| && |columns| == c.numVariables
    ensures forall w | 0 <= w < |columns| :: |columns[w]| == |choices|
  {
    hide Satisfies;
  }

  /** A table row starts with the example of its choice. */
  lemma RowStarts(bg: Background, examples: seq<seq<Value>>, c: Clause, columns: seq<seq<Value>>, choices: seq<Choice>,
                  b: nat)
    requires c.Valid() && |examples| == c.numHead && BindingTableOf(bg, examples, c, columns, choices) && b < |choices|
    ensures choices[b].example < Rows(examples)
    ensures RowAt(columns, b)[..c.numHead] == RowAt(examples, choices[b].example)
    ensures SatisfiesRow(bg, c, RowAt(examples, choices[b].example), choices[b].facts, RowAt(columns, b))
  {
    assert Satisfies(bg, examples, c, choices[b], RowAt(columns, b));
    hide BodyMatches;
  }

  lemma StartsMeansRow(columns: seq<seq<Value>>, b: nat, examples: seq<seq<Value>>, e: nat, n: nat)
    requires n == |examples| <= |columns| && (forall w | 0 <= w < n :: e < |examples[w]| && b < |columns[w]|)
    ensures StartsWithExample(columns, b, examples, e, n) <==> RowAt(columns, b)[..n] == RowAt(examples, e)
  {
    var x, y := RowAt(columns, b)[..n], RowAt(examples, e);
    forall w | 0 <= w < n
      ensures AgreesAt(examples, columns, w, w, e, b) <==> x[w] == y[w]
    {
    }
    if x == y {
      assert forall w | 0 <= w < n :: x[w] == y[w];
    }
  }

  lemma ColumnsFull(columns: seq<seq<Value>>, e: nat)
    requires Rectangular(columns) && columns != [] && e < Rows(columns)
    ensures forall w | 0 <= w < |columns| :: e < |columns[w]|
  {
    assert forall w | 0 <= w < |columns| :: columns[w] in columns;
  }

  /** The cascade of semi-joins finds exactly the examples that the extended
      clause covers, provided the table was started from them. */
  lemma CoveredMeansCovers(bg: Background, start: seq<seq<Value>>, c: Clause, columns: seq<seq<Value>>,
                           choices: seq<Choice>,
                           pred: nat, vars: Variables, examples: seq<seq<Value>>, e: nat)
    requires CanAdd(bg, c, pred, vars) && BindingTableOf(bg, start, c, columns, choices)
    requires |start| == |examples| == c.numHead && Rectangular(examples) && e < Rows(examples)
    requires OccursIn(RowAt(examples, e), start)
    ensures IsCovered(examples, e, columns, bg[pred], vars, c.numHead)
            <==> Covers(bg, Added(c, pred, vars), RowAt(examples, e))
  {
    TableShape(bg, start, c, columns, choices);
    ColumnsFull(examples, e);
    hide BindingTableOf, CanAdd, Satisfies, SatisfiesRow, Rectangular, RowAt, StartsWithExample, Agrees, Clause.Valid;
    if IsCovered(examples, e, columns, bg[pred], vars, c.numHead) {
      var b :| 0 <= b < Rows(columns) && StartsWithExample(columns, b, examples, e, c.numHead)
      && HasWitness(bg[pred], columns, vars, b);
      var f :| 0 <= f < Rows(bg[pred]) && Agrees(bg[pred], columns, vars, f, b);
      CoveredRowCovers(bg, start, c, columns, choices, pred, vars, examples, e, b, f);
    }
    if Covers(bg, Added(c, pred, vars), RowAt(examples, e)) {
      var facts, sigma :| SatisfiesRow(bg, Added(c, pred, vars), RowAt(examples, e), facts, sigma);
      var e0 :| 0 <= e0 < Rows(start) && RowAt(start, e0) == RowAt(examples, e);
      CoveringRowIsCovered(bg, start, c, columns, choices, pred, vars, examples, e, e0, facts, sigma);
    }
  }

  lemma CoveredRowCovers(bg: Background, start: seq<seq<Value>>, c: Clause, columns: seq<seq<Value>>,
                         choices: seq<Choice>,
                         pred: nat, vars: Variables, examples: seq<seq<Value>>, e: nat, b: nat, f: nat)
    requires CanAdd(bg, c, pred, vars) && BindingTableOf(bg, start, c, columns, choices)
    requires |start| == |examples| == c.numHead && (forall w | 0 <= w < |examples| :: e < |examples[w]|)
    requires b < Rows(columns) && StartsWithExample(columns, b, examples, e, c.numHead)
    requires f < Rows(bg[pred]) && Agrees(bg[pred], columns, vars, f, b)
    ensures Covers(bg, Added(c, pred, vars), RowAt(examples, e))
  {
    CanAddMeans(bg, c, pred, vars);
    TableShape(bg, start, c, columns, choices);
    StartsMeansRow(columns, b, examples, e, c.numHead);
    RowStarts(bg, start, c, columns, choices, b);
    hide *;
    var sigma := NewRow(bg, start, c, columns, choices, pred, vars, b, f);
    CoversBy(bg, Added(c, pred, vars), RowAt(examples, e), choices[b].facts + [f], sigma);
  }

  /** The table row and the fact make a row of the extended clause. */
  lemma NewRow(bg: Background, start: seq<seq<Value>>, c: Clause, columns: seq<seq<Value>>, choices: seq<Choice>,
               pred: nat, vars: Variables, b: nat, f: nat)
    returns (sigma: seq<Value>)
    requires CanAdd(bg, c, pred, vars) && BindingTableOf(bg, start, c, columns, choices) && b < |choices|
    requires f < Rows(bg[pred]) && Agrees(bg[pred], columns, vars, f, b)
    ensures SatisfiesRow(bg, Added(c, pred, vars), RowAt(start, choices[b].example), choices[b].facts + [f], sigma)
  {
    var us, q := Unbound(vars, |vars|), Pair(f, b);
    var newColumns: seq<seq<Value>> := seq(|columns| + |us|,
                                           w requires 0 <= w < |columns|
                                               + |us| => Extended(w, bg[pred], columns, us, [q]));
    hide Agrees, Extended, SatisfiesRow, CanAdd, BindingTableOf, RowAt;
    NewRowSatisfies(bg, start, c, pred, vars, columns, choices, newColumns, [q], 0);
    sigma := RowAt(newColumns, 0);
  }

  lemma CoversBy(bg: Background, c: Clause, row: seq<Value>, facts: seq<nat>, sigma: seq<Value>)
    requires SatisfiesRow(bg, c, row, facts, sigma)
    ensures Covers(bg, c, row)
  {
    hide SatisfiesRow;
  }

  lemma CoveringRowIsCovered(bg: Background, start: seq<seq<Value>>, c: Clause, columns: seq<seq<Value>>,
                             choices: seq<Choice>,
                             pred: nat, vars: Variables, examples: seq<seq<Value>>, e: nat, e0: nat, facts: seq<nat>,
                                 sigma: seq<Value>)
    requires CanAdd(bg, c, pred, vars) && BindingTableOf(bg, start, c, columns, choices)
    requires |start| == |examples| == c.numHead && (forall w | 0 <= w < |examples| :: e < |examples[w]|)
    requires e0 < Rows(start) && RowAt(start, e0) == RowAt(examples, e)
    requires SatisfiesRow(bg, Added(c, pred, vars), RowAt(examples, e), facts, sigma)
    ensures IsCovered(examples, e, columns, bg[pred], vars, c.numHead)
  {
    var f, b := FindRow(bg, start, c, pred, vars, columns, choices, Choice(e0, facts), sigma);
    TableShape(bg, start, c, columns, choices);
    RowStarts(bg, start, c, columns, choices, b);
    hide BindingTableOf, CanAdd, Satisfies, SatisfiesRow, Agrees, RowAt, StartsWithExample, Clause.Valid;
    assert choices[b].example == e0;
    StartsMeansRow(columns, b, examples, e, c.numHead);
    assert HasWitness(bg[pred], columns, vars, b);
  }

  // ---------------------------------------------------------------------
  // Pruning by coverage
  // ---------------------------------------------------------------------

  /** c' is c with more literals. */
  ghost predicate IsExtendedBy(c: Clause, c': Clause) {
    c'.numHead == c.numHead && c.numVariables <= c'.numVariables && c.body <= c'.body
  }

  /** vars' binds at least what vars binds, to the same variables. */
  ghost predicate FurtherBound(vars: Variables, vars': Variables) {
    |vars'| == |vars| && forall v | 0 <= v < |vars| && vars[v] >= 0 :: vars'[v] == vars[v]
  }

  /** An assignment of the longer clause restricts to one of the shorter. */
  lemma Restricts(bg: Background, c: Clause, c': Clause, row: seq<Value>, facts: seq<nat>, sigma: seq<Value>)
    requires c.Valid() && IsExtendedBy(c, c') && SatisfiesRow(bg, c', row, facts, sigma)
    ensures |c.body| <= |facts| && SatisfiesRow(bg, c, row, facts[..|c.body|], sigma[..c.numVariables])
  {
    var fs, s := facts[..|c.body|], sigma[..c.numVariables];
    assert s[..c.numHead] == sigma[..c.numHead];
    forall i | 0 <= i < |c.body|
      ensures c.body[i].pred < |bg| && FactMatches(bg[c.body[i].pred], fs[i], c.body[i], s)
    {
      assert c.body[i] == c'.body[i];
      assert FactMatches(bg[c'.body[i].pred], facts[i], c'.body[i], sigma);
    }
  }

  /** If a literal has no witness among the bindings of a clause, none of its
      further bound versions has one among the bindings of any extension of the
      clause, over the same or fewer examples. */
  lemma ZeroCoverageIsFinal(bg: Background, examples: seq<seq<Value>>, c: Clause, columns: seq<seq<Value>>,
                            choices: seq<Choice>,
                            examples': seq<seq<Value>>, c': Clause, columns': seq<seq<Value>>, choices': seq<Choice>,
                            facts: seq<seq<Value>>, vars: Variables, vars': Variables)
    requires c.Valid() && c'.Valid() && IsExtendedBy(c, c') && |examples| == |examples'| == c.numHead
    requires BindingTableOf(bg, examples, c, columns, choices) && BindingTableOf(bg, examples', c', columns', choices')
    requires Within(examples', examples) && FurtherBound(vars, vars')
    requires forall v | 0 <= v < |vars| :: vars[v] < c.numVariables
    requires Witnesses(facts, columns, vars) == {}
    ensures Witnesses(facts, columns', vars') == {}
  {
    if q :| q in Witnesses(facts, columns', vars') {
      var b := WitnessGoesBack(bg, examples, c, columns, choices, examples', c', columns', choices', facts, vars,
                               vars', q);
      assert false;
    }
  }

  /** A witness of the further bound version is one of the literal itself. */
  lemma WitnessGoesBack(bg: Background, examples: seq<seq<Value>>, c: Clause, columns: seq<seq<Value>>,
                        choices: seq<Choice>,
                        examples': seq<seq<Value>>, c': Clause, columns': seq<seq<Value>>, choices': seq<Choice>,
                        facts: seq<seq<Value>>, vars: Variables, vars': Variables, q: Pair)
    returns (b: nat)
    requires c.Valid() && c'.Valid() && IsExtendedBy(c, c') && |examples| == |examples'| == c.numHead
    requires BindingTableOf(bg, examples, c, columns, choices) && BindingTableOf(bg, examples', c', columns', choices')
    requires Within(examples', examples) && FurtherBound(vars, vars')
    requires forall v | 0 <= v < |vars| :: vars[v] < c.numVariables
    requires q in Witnesses(facts, columns', vars')
    ensures Pair(q.fact, b) in Witnesses(facts, columns, vars)
    ensures b < |choices| && q.binding < |choices'| && RowAt(columns, b) == RowAt(columns', q.binding)[..c.numVariables]
  {
    TableShape(bg, examples, c, columns, choices);
    TableShape(bg, examples', c', columns', choices');
    hide BindingTableOf, Within, Clause.Valid, RowAt, FurtherBound;
    assert q.fact < Rows(facts) && q.binding < Rows(columns') && Agrees(facts, columns', vars', q.fact, q.binding);
    b := SameBinding(bg, examples, c, columns, choices, examples', c', columns', choices', q.binding);
    hide IsExtendedBy;
    AgreesBefore(facts, columns, columns', vars, vars', q.fact, b, q.binding, c.numVariables);
    hide Agrees;
  }

  /** The binding of the shorter clause that a binding of the longer one extends. */
  lemma SameBinding(bg: Background, examples: seq<seq<Value>>, c: Clause, columns: seq<seq<Value>>,
                    choices: seq<Choice>,
                    examples': seq<seq<Value>>, c': Clause, columns': seq<seq<Value>>, choices': seq<Choice>, b': nat)
    returns (b: nat)
    requires c.Valid() && c'.Valid() && IsExtendedBy(c, c') && |examples| == |examples'| == c.numHead
    requires BindingTableOf(bg, examples, c, columns, choices) && BindingTableOf(bg, examples', c', columns', choices')
    requires Within(examples', examples) && b' < |choices'|
    ensures b < |choices| && RowAt(columns, b) == RowAt(columns', b')[..c.numVariables]
  {
    RowStarts(bg, examples', c', columns', choices', b');
    var e', fs, sigma := choices'[b'].example, choices'[b'].facts, RowAt(columns', b');
    assert OccursIn(RowAt(examples', e'), examples);
    var e :| 0 <= e < Rows(examples) && RowAt(examples, e) == RowAt(examples', e');
    Restricts(bg, c, c', RowAt(examples', e'), fs, sigma);
    hide SatisfiesRow;
    assert Satisfies(bg, examples, c, Choice(e, fs[..|c.body|]), sigma[..c.numVariables]);
    b := IndexOf(bg, examples, c, columns, choices, Choice(e, fs[..|c.body|]), sigma[..c.numVariables]);
  }

  lemma AgreesBefore(facts: seq<seq<Value>>, columns: seq<seq<Value>>, columns': seq<seq<Value>>, vars: Variables,
                     vars': Variables,
                     f: nat, b: nat, b': nat, n: nat)
    requires FurtherBound(vars, vars') && Agrees(facts, columns', vars', f, b')
    requires n == |columns| <= |columns'| && (forall v | 0 <= v < |vars| :: vars[v] < n)
    requires (forall w | 0 <= w < n :: b < |columns[w]|) && RowAt(columns, b) == RowAt(columns', b')[..n]
    ensures Agrees(facts, columns, vars, f, b)
  {
    forall v | 0 <= v < |vars| && vars[v] >= 0
      ensures AgreesAt(facts, columns, v, vars[v], f, b)
    {
      assert AgreesAt(facts, columns', v, vars'[v], f, b');
      assert RowAt(columns, b)[vars[v]] == RowAt(columns', b')[..n][vars[v]];
    }
  }
}
