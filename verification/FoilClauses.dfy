/** Clauses, the numbering of their variables, and what their binding tables hold
    (schema/FoilClause.cpp, schema/FoilClause.hpp). */
module FoilClauses {
  import opened RadixPartition
  import opened Tallies
  import opened Bindings
  import opened JoinMeaning
  import opened MultiColumnJoin
  import opened BindingTables
  import opened Examples

  /** A literal of a clause: every variable has an id. */
  datatype BodyLiteral = BodyLiteral(pred: nat, variables: seq<nat>)

  /** The first numHead variables are those of the head, in order. */
  datatype Clause = Clause(numHead: nat, body: seq<BodyLiteral>, numVariables: nat) {

    /** Ids are in range and every variable occurs. */
    ghost predicate Valid() {
      && 0 < numHead <= numVariables
      && (forall i, v | 0 <= i < |body| && 0 <= v < |body[i].variables| :: body[i].variables[v] < numVariables)
      && forall w | numHead <= w < numVariables :: Occurs(w)
    }

    ghost predicate Occurs(w: nat) {
      exists i, v :: 0 <= i < |body| && 0 <= v < |body[i].variables| && body[i].variables[v] == w
    }
  }

  /** The fact tables of the background predicates, by column. */
  type Background = seq<seq<seq<Value>>>

  // ---------------------------------------------------------------------
  // Numbering
  // ---------------------------------------------------------------------

  /** Ids for the first n variables of a literal: unbound ones get the next free ids. */
  function Numbered(vars: Variables, n: nat, base: nat): (ids: seq<nat>)
    requires n <= |vars|
    ensures |ids| == n
  {
    if n == 0 then []
    else Numbered(vars, n - 1, base) + [if vars[n - 1] >= 0 then vars[n - 1] else base + |Unbound(vars, n - 1)|]
  }

  function Added(c: Clause, pred: nat, vars: Variables): (r: Clause) {
    Clause(c.numHead, c.body + [BodyLiteral(pred, Numbered(vars, |vars|, c.numVariables))],
           c.numVariables + |Unbound(vars, |vars|)|)
  }

  lemma {:induction false} NumberedAt(vars: Variables, n: nat, base: nat, v: nat)
    requires v < n <= |vars|
    ensures Numbered(vars, n, base)[v] == if vars[v] >= 0 then vars[v] else base + |Unbound(vars, v)|
  {
    if v < n - 1 {
      NumberedAt(vars, n - 1, base, v);
    }
  }

  lemma {:induction false} UnboundAt(vars: Variables, n: nat, v: nat)
    requires v < n <= |vars| && vars[v] < 0
    ensures |Unbound(vars, v)| < |Unbound(vars, n)| && Unbound(vars, n)[|Unbound(vars, v)|] == v
  {
    if v < n - 1 {
      UnboundAt(vars, n - 1, v);
    }
  }

  lemma {:induction false} UnboundPosition(vars: Variables, n: nat, j: nat)
    requires n <= |vars| && j < |Unbound(vars, n)|
    ensures |Unbound(vars, Unbound(vars, n)[j])| == j
  {
    if j < |Unbound(vars, n - 1)| {
      UnboundPosition(vars, n - 1, j);
    }
  }

  /** Bound variables keep their ids; the j-th unbound position gets base + j, so
      that it names the j-th new column. */
  lemma NumberingMeans(vars: Variables, base: nat)
    ensures forall v | 0 <= v < |vars| && vars[v] >= 0 :: Numbered(vars, |vars|, base)[v] == vars[v]
    ensures forall j | 0 <= j < |Unbound(vars, |vars|)| ::
              Numbered(vars, |vars|, base)[Unbound(vars, |vars|)[j]] == base + j
    ensures forall v | 0 <= v < |vars| && vars[v] < 0 :: IsUnbound(vars, v)
  {
    var ids, us := Numbered(vars, |vars|, base), Unbound(vars, |vars|);
    forall v | 0 <= v < |vars|
      ensures vars[v] >= 0 ==> ids[v] == vars[v]
      ensures vars[v] < 0 ==> IsUnbound(vars, v)
    {
      NumberedAt(vars, |vars|, base, v);
      if vars[v] < 0 {
        UnboundAt(vars, |vars|, v);
      }
    }
    forall j | 0 <= j < |us|
      ensures ids[us[j]] == base + j
    {
      NumberedAt(vars, |vars|, base, us[j]);
      UnboundPosition(vars, |vars|, j);
    }
  }

  ghost predicate IsUnbound(vars: Variables, v: nat) {
    exists j :: 0 <= j < |Unbound(vars, |vars|)| && Unbound(vars, |vars|)[j] == v
  }

  lemma AddedIsValid(c: Clause, pred: nat, vars: Variables)
    requires c.Valid() && forall v | 0 <= v < |vars| :: vars[v] < c.numVariables
    ensures Added(c, pred, vars).Valid()
  {
    var r, n := Added(c, pred, vars), c.numVariables;
    var lit := r.body[|c.body|];
    NumberingMeans(vars, n);
    forall v | 0 <= v < |lit.variables|
      ensures lit.variables[v] < r.numVariables
    {
      if vars[v] < 0 {
        assert IsUnbound(vars, v);
        var j :| 0 <= j < |Unbound(vars, |vars|)| && Unbound(vars, |vars|)[j] == v;
      }
    }
    forall w | r.numHead <= w < r.numVariables
      ensures r.Occurs(w)
    {
      if w < n {
        assert c.Occurs(w);
        var i, v :| 0 <= i < |c.body| && 0 <= v < |c.body[i].variables| && c.body[i].variables[v] == w;
        assert r.body[i].variables[v] == w;
      } else {
        var v := Unbound(vars, |vars|)[w - n];
        assert lit.variables[v] == w;
      }
    }
  }

  class FoilClause {
    const numHead: nat
    var bodyLiterals: seq<BodyLiteral>
    var numVariables: nat

    function Value(): (c: Clause)
      reads this
    {
      Clause(numHead, bodyLiterals, numVariables)
    }

    constructor (n: nat)
      ensures Value() == Clause(n, [], n)
    {
      numHead, bodyLiterals, numVariables := n, [], n;
    }

    /** CopyWithoutData. */
    constructor Copy(c: Clause)
      ensures Value() == c
    {
      numHead, bodyLiterals, numVariables := c.numHead, c.body, c.numVariables;
    }

    /** Unbound variables become new variables of the clause, from left to right. */
    method AddUnBoundBodyLiteral(pred: nat, vars: Variables)
      modifies this
      ensures Value() == Added(old(Value()), pred, vars)
    {
      ghost var base := numVariables;
      var literalVariables: seq<nat> := [];
      for v := 0 to |vars|
        invariant bodyLiterals == old(bodyLiterals)
        invariant literalVariables == Numbered(vars, v, base) && numVariables == base + |Unbound(vars, v)|
      {
        if vars[v] < 0 {
          literalVariables := literalVariables + [numVariables];
          numVariables := numVariables + 1;
        } else {
          literalVariables := literalVariables + [vars[v]];
        }
      }
      bodyLiterals := bodyLiterals + [BodyLiteral(pred, literalVariables)];
    }
  }

  // ---------------------------------------------------------------------
  // What a clause says about an example
  // ---------------------------------------------------------------------

  /** The fact row instantiates the literal under the assignment. */
  ghost predicate FactMatches(columns: seq<seq<Value>>, f: nat, lit: BodyLiteral, sigma: seq<Value>) {
    && |lit.variables| == |columns|
    && forall v | 0 <= v < |columns| ::
         f < |columns[v]| && lit.variables[v] < |sigma| && columns[v][f] == sigma[lit.variables[v]]
  }

  ghost predicate BodyMatches(bg: Background, body: seq<BodyLiteral>, facts: seq<nat>, sigma: seq<Value>) {
    && |facts| == |body|
    && forall i | 0 <= i < |body| ::
         body[i].pred < |bg| && FactMatches(bg[body[i].pred], facts[i], body[i], sigma)
  }

  /** The assignment starts with the row and satisfies the body by these facts. */
  ghost predicate SatisfiesRow(bg: Background, c: Clause, row: seq<Value>, facts: seq<nat>, sigma: seq<Value>) {
    && |sigma| == c.numVariables && |row| == c.numHead <= |sigma| && sigma[..c.numHead] == row
    && BodyMatches(bg, c.body, facts, sigma)
  }

  ghost predicate Covers(bg: Background, c: Clause, row: seq<Value>) {
    exists facts, sigma :: SatisfiesRow(bg, c, row, facts, sigma)
  }

  /** Row e of a table of examples. */
  ghost function RowAt(columns: seq<seq<Value>>, e: nat): (row: seq<Value>)
    ensures |row| == |columns|
  {
    seq(|columns|, i requires 0 <= i < |columns| => ValueAt(columns[i], e))
  }

  /** A fact row for every body literal, over an example. */
  datatype Choice = Choice(example: nat, facts: seq<nat>)

  ghost predicate Satisfies(bg: Background, examples: seq<seq<Value>>, c: Clause, q: Choice, sigma: seq<Value>) {
    q.example < Rows(examples) && SatisfiesRow(bg, c, RowAt(examples, q.example), q.facts, sigma)
  }

  /** Facts and example leave no freedom in the assignment. */
  lemma AssignmentIsUnique(bg: Background, c: Clause, row: seq<Value>, facts: seq<nat>, s: seq<Value>, t: seq<Value>)
    requires c.Valid() && SatisfiesRow(bg, c, row, facts, s) && SatisfiesRow(bg, c, row, facts, t)
    ensures s == t
  {
    forall w | 0 <= w < c.numVariables
      ensures s[w] == t[w]
    {
      if w < c.numHead {
        assert s[..c.numHead][w] == t[..c.numHead][w];
      } else {
        assert c.Occurs(w);
        var i, v :| 0 <= i < |c.body| && 0 <= v < |c.body[i].variables| && c.body[i].variables[v] == w;
        assert FactMatches(bg[c.body[i].pred], facts[i], c.body[i], s);
        assert FactMatches(bg[c.body[i].pred], facts[i], c.body[i], t);
      }
    }
  }

  // ---------------------------------------------------------------------
  // Binding tables
  // ---------------------------------------------------------------------

  /** One row per choice of facts that satisfies the body, holding the values of
      variables 0, 1, 2, ... in columns 0, 1, 2, ... */
  ghost predicate BindingTableOf(bg: Background, examples: seq<seq<Value>>, c: Clause, columns: seq<seq<Value>>,
                                 choices: seq<Choice>) {
    && |columns| == c.numVariables && (forall w | 0 <= w < |columns| :: |columns[w]| == |choices|)
    && Distinct(choices)
    && (forall k | 0 <= k < |choices| :: Satisfies(bg, examples, c, choices[k], RowAt(columns, k)))
    && forall q, sigma | Satisfies(bg, examples, c, q, sigma) :: q in choices
  }

  ghost predicate HasTable(bg: Background, examples: seq<seq<Value>>, c: Clause, columns: seq<seq<Value>>) {
    exists choices :: BindingTableOf(bg, examples, c, columns, choices)
  }

  /** The rows of the starting table are the bindings of the empty body. */
  lemma StartingTable(bg: Background, examples: seq<seq<Value>>)
    returns (choices: seq<Choice>)
    requires Rectangular(examples) && examples != []
    ensures BindingTableOf(bg, examples, Clause(|examples|, [], |examples|), examples, choices)
  {
    var c := Clause(|examples|, [], |examples|);
    choices := seq(Rows(examples), k requires 0 <= k < Rows(examples) => Choice(k, []));
    assert forall w | 0 <= w < |examples| :: examples[w] in examples;
    forall k | 0 <= k < |choices|
      ensures Satisfies(bg, examples, c, choices[k], RowAt(examples, k))
    {
      assert RowAt(examples, k)[..c.numHead] == RowAt(examples, k);
    }
    forall q, sigma | Satisfies(bg, examples, c, q, sigma)
      ensures q in choices
    {
      assert q == choices[q.example];
    }
  }

  // ---------------------------------------------------------------------
  // Extending a clause extends its binding table
  // ---------------------------------------------------------------------

  /** A literal that can be added to the clause. */
  ghost predicate CanAdd(bg: Background, c: Clause, pred: nat, vars: Variables) {
    && c.Valid() && pred < |bg| && Rectangular(bg[pred]) && |vars| == |bg[pred]|
    && (exists v :: 0 <= v < |vars| && vars[v] >= 0)
    && forall v | 0 <= v < |vars| :: vars[v] < c.numVariables
  }

  function NewLiteral(c: Clause, pred: nat, vars: Variables): (lit: BodyLiteral) {
    BodyLiteral(pred, Numbered(vars, |vars|, c.numVariables))
  }

  /** The extended clause asks what the clause asks of the old variables, and a
      fact for the new literal. */
  lemma SatisfiesAdded(bg: Background, c: Clause, pred: nat, vars: Variables, row: seq<Value>, facts: seq<nat>, f: nat,
                       sigma: seq<Value>)
    requires CanAdd(bg, c, pred, vars) && |sigma| == Added(c, pred, vars).numVariables
    ensures SatisfiesRow(bg, Added(c, pred, vars), row, facts + [f], sigma)
            <==> SatisfiesRow(bg, c, row, facts, sigma[..c.numVariables])
                 && FactMatches(bg[pred], f, NewLiteral(c, pred, vars), sigma)
  {
    var r, n, lit, old_ := Added(c, pred, vars), c.numVariables, NewLiteral(c, pred, vars), sigma[..c.numVariables];
    assert sigma[..c.numHead] == old_[..c.numHead];
    BodySeesOldVariables(bg, c, facts, sigma);
    BodyAdded(bg, c.body, lit, facts, f, sigma);
    hide FactMatches, Numbered, BodyMatches;
  }

  /** The body mentions no variable that comes later. */
  lemma BodySeesOldVariables(bg: Background, c: Clause, facts: seq<nat>, sigma: seq<Value>)
    requires c.Valid() && c.numVariables <= |sigma|
    ensures BodyMatches(bg, c.body, facts, sigma) <==> BodyMatches(bg, c.body, facts, sigma[..c.numVariables])
  {
    var old_ := sigma[..c.numVariables];
    forall i | 0 <= i < |c.body| && i < |facts| && c.body[i].pred < |bg|
      ensures FactMatches(bg[c.body[i].pred], facts[i], c.body[i], sigma)
              <==> FactMatches(bg[c.body[i].pred], facts[i], c.body[i], old_)
    {
    }
    hide FactMatches;
  }

  lemma BodyAdded(bg: Background, body: seq<BodyLiteral>, lit: BodyLiteral, facts: seq<nat>, f: nat, sigma: seq<Value>)
    ensures BodyMatches(bg, body + [lit], facts + [f], sigma)
            <==> BodyMatches(bg, body, facts, sigma) && lit.pred < |bg| && FactMatches(bg[lit.pred], f, lit, sigma)
  {
    hide FactMatches;
    var body', facts' := body + [lit], facts + [f];
    if BodyMatches(bg, body', facts', sigma) {
      assert body'[|body|] == lit && facts'[|body|] == f;
      forall i | 0 <= i < |body|
        ensures body[i].pred < |bg| && FactMatches(bg[body[i].pred], facts[i], body[i], sigma)
      {
        assert body'[i] == body[i] && facts'[i] == facts[i];
      }
    }
  }

  /** Row k of the joined table, column by column. */
  lemma NewRow(facts: seq<seq<Value>>, columns: seq<seq<Value>>, unbound: seq<nat>, newColumns: seq<seq<Value>>,
               pairs: seq<Pair>, k: nat)
    requires k < |pairs| && |columns| <= |newColumns|
    requires forall w | 0 <= w < |newColumns| :: newColumns[w] == Extended(w, facts, columns, unbound, pairs)
    ensures forall w | 0 <= w < |newColumns| ::
              RowAt(newColumns, k)[w] == ExtendedAt(w, facts, columns, unbound, pairs[k])
    ensures RowAt(newColumns, k)[..|columns|] == RowAt(columns, pairs[k].binding)
  {
  }

  /** A row of the joined table satisfies the new literal. */
  lemma NewRowMatches(bg: Background, c: Clause, pred: nat, vars: Variables, columns: seq<seq<Value>>,
                      newColumns: seq<seq<Value>>,
                      pairs: seq<Pair>, k: nat)
    requires CanAdd(bg, c, pred, vars) && |columns| == c.numVariables && k < |pairs|
    requires |newColumns| == Added(c, pred, vars).numVariables
    requires forall w | 0 <= w < |newColumns| ::
               newColumns[w] == Extended(w, bg[pred], columns, Unbound(vars, |vars|), pairs)
    requires pairs[k].fact < Rows(bg[pred]) && Agrees(bg[pred], columns, vars, pairs[k].fact, pairs[k].binding)
    ensures FactMatches(bg[pred], pairs[k].fact, NewLiteral(c, pred, vars), RowAt(newColumns, k))
    ensures RowAt(newColumns, k)[..c.numVariables] == RowAt(columns, pairs[k].binding)
  {
    hide Extended, ExtendedAt, Agrees, Rectangular, Numbered, RowAt;
    var facts, q := bg[pred], pairs[k];
    var lit, sigma := NewLiteral(c, pred, vars), RowAt(newColumns, k);
    NewRow(facts, columns, Unbound(vars, |vars|), newColumns, pairs, k);
    NumberingMeans(vars, c.numVariables);
    forall v | 0 <= v < |facts|
      ensures q.fact < |facts[v]| && lit.variables[v] < |sigma| && facts[v][q.fact] == sigma[lit.variables[v]]
    {
      if vars[v] < 0 {
        assert IsUnbound(vars, v);
      }
      CellMatches(facts, columns, vars, q, v, lit.variables[v]);
    }
  }

  /** One position of the new literal. */
  lemma CellMatches(facts: seq<seq<Value>>, columns: seq<seq<Value>>, vars: Variables, q: Pair, v: nat, id: nat)
    requires Rectangular(facts) && v < |facts| == |vars| && q.fact < Rows(facts)
             && Agrees(facts, columns, vars, q.fact, q.binding)
    requires forall w | 0 <= w < |vars| :: vars[w] < |columns|
    requires vars[v] >= 0 ==> id == vars[v]
    requires vars[v] < 0 ==> exists j ::
               0 <= j < |Unbound(vars, |vars|)| && Unbound(vars, |vars|)[j] == v && id == |columns| + j
    ensures q.fact < |facts[v]| && id < |columns| + |Unbound(vars, |vars|)|
    ensures facts[v][q.fact] == ExtendedAt(id, facts, columns, Unbound(vars, |vars|), q)
  {
    assert facts[v] in facts && facts[0] in facts;
    if vars[v] >= 0 {
      assert AgreesAt(facts, columns, v, vars[v], q.fact, q.binding);
    }
  }

  /** An assignment of the extended clause over row b is the joined row. */
  lemma MatchingFactAgrees(bg: Background, c: Clause, pred: nat, vars: Variables, columns: seq<seq<Value>>, f: nat,
                           b: nat, sigma: seq<Value>)
    requires CanAdd(bg, c, pred, vars) && |columns| == c.numVariables <= |sigma| && forall w | 0 <= w < |columns| ::
               b < |columns[w]|
    requires sigma[..c.numVariables] == RowAt(columns, b) && FactMatches(bg[pred], f, NewLiteral(c, pred, vars), sigma)
    ensures f < Rows(bg[pred]) && Agrees(bg[pred], columns, vars, f, b)
  {
    NumberingMeans(vars, c.numVariables);
    forall v | 0 <= v < |vars| && vars[v] >= 0
      ensures AgreesAt(bg[pred], columns, v, vars[v], f, b)
    {
      assert sigma[vars[v]] == sigma[..c.numVariables][vars[v]] == columns[vars[v]][b];
    }
  }

  ghost function ExtendedChoices(choices: seq<Choice>, pairs: seq<Pair>): (r: seq<Choice>)
    requires forall k | 0 <= k < |pairs| :: pairs[k].binding < |choices|
    ensures |r| == |pairs|
    ensures forall k | 0 <= k < |r| ::
              r[k] == Choice(choices[pairs[k].binding].example, choices[pairs[k].binding].facts + [pairs[k].fact])
  {
    seq(|pairs|,
        k requires 0 <= k < |pairs| => Choice(choices[pairs[k].binding].example,
                                              choices[pairs[k].binding].facts + [pairs[k].fact]))
  }

  lemma PairsAreInRange(bg: Background, pred: nat, vars: Variables, columns: seq<seq<Value>>, pairs: seq<Pair>, k: nat,
                        rows: nat)
    requires pred < |bg| && columns != [] && (forall w | 0 <= w < |columns| :: |columns[w]| == rows)
    requires Enumerated(pairs, bg[pred], columns, vars) && k < |pairs|
    ensures pairs[k].fact < Rows(bg[pred]) && pairs[k].binding < rows
    ensures Agrees(bg[pred], columns, vars, pairs[k].fact, pairs[k].binding)
  {
    assert pairs[k] in pairs;
  }

  /** The table of the extended clause: column n + j holds its variable n + j, and
      the rows are its satisfying assignments, one per choice of fact rows. */
  lemma ExtensionKeepsTable(bg: Background, examples: seq<seq<Value>>, c: Clause, pred: nat, vars: Variables,
                            columns: seq<seq<Value>>,
                            choices: seq<Choice>, newColumns: seq<seq<Value>>, pairs: seq<Pair>)
    returns (newChoices: seq<Choice>)
    requires CanAdd(bg, c, pred, vars) && BindingTableOf(bg, examples, c, columns, choices)
    requires IsJoinedTable(newColumns, bg[pred], columns, vars, pairs)
    ensures BindingTableOf(bg, examples, Added(c, pred, vars), newColumns, newChoices)
  {
    hide Satisfies, Agrees, Extended, Enumerated, SatisfiesRow;
    forall k | 0 <= k < |pairs|
      ensures pairs[k].fact < Rows(bg[pred]) && pairs[k].binding < |choices|
      ensures Agrees(bg[pred], columns, vars, pairs[k].fact, pairs[k].binding)
    {
      PairsAreInRange(bg, pred, vars, columns, pairs, k, |choices|);
    }
    newChoices := ExtendedChoices(choices, pairs);
    NewChoicesDistinct(choices, pairs, bg[pred], columns, vars);
    forall k | 0 <= k < |newChoices|
      ensures Satisfies(bg, examples, Added(c, pred, vars), newChoices[k], RowAt(newColumns, k))
    {
      NewRowSatisfies(bg, examples, c, pred, vars, columns, choices, newColumns, pairs, k);
    }
    forall q, sigma | Satisfies(bg, examples, Added(c, pred, vars), q, sigma)
      ensures q in newChoices
    {
      EveryChoiceIsThere(bg, examples, c, pred, vars, columns, choices, pairs, q, sigma);
    }
  }

  lemma NewChoicesDistinct(choices: seq<Choice>, pairs: seq<Pair>, facts: seq<seq<Value>>, columns: seq<seq<Value>>,
                           vars: Variables)
    requires Distinct(choices) && Enumerated(pairs, facts, columns, vars)
    requires forall k | 0 <= k < |pairs| :: pairs[k].binding < |choices|
    ensures Distinct(ExtendedChoices(choices, pairs))
  {
    var r := ExtendedChoices(choices, pairs);
    forall i, j | 0 <= i < j < |r|
      ensures r[i] != r[j]
    {
      assert pairs[i] != pairs[j];
      if pairs[i].fact == pairs[j].fact {
        assert pairs[i].binding != pairs[j].binding;
        assert choices[pairs[i].binding] != choices[pairs[j].binding];
        assert r[i].facts[..|r[i].facts| - 1] == choices[pairs[i].binding].facts;
        assert r[j].facts[..|r[j].facts| - 1] == choices[pairs[j].binding].facts;
      } else {
        assert r[i].facts[|r[i].facts| - 1] == pairs[i].fact && r[j].facts[|r[j].facts| - 1] == pairs[j].fact;
      }
    }
  }

  lemma NewRowSatisfies(bg: Background, examples: seq<seq<Value>>, c: Clause, pred: nat, vars: Variables,
                        columns: seq<seq<Value>>,
                        choices: seq<Choice>, newColumns: seq<seq<Value>>, pairs: seq<Pair>, k: nat)
    requires CanAdd(bg, c, pred, vars) && BindingTableOf(bg, examples, c, columns, choices) && k < |pairs|
    requires |newColumns| == |columns| + |Unbound(vars, |vars|)|
    requires forall w | 0 <= w < |newColumns| ::
               newColumns[w] == Extended(w, bg[pred], columns, Unbound(vars, |vars|), pairs)
    requires pairs[k].fact < Rows(bg[pred]) && pairs[k].binding < |choices|
    requires Agrees(bg[pred], columns, vars, pairs[k].fact, pairs[k].binding)
    ensures var old_ := choices[pairs[k].binding];
            Satisfies(bg, examples, Added(c, pred, vars), Choice(old_.example, old_.facts + [pairs[k].fact]),
                      RowAt(newColumns, k))
  {
    hide Agrees, Extended, Numbered, FactMatches, BodyMatches;
    var b := pairs[k].binding;
    assert Satisfies(bg, examples, c, choices[b], RowAt(columns, b));
    NewRowMatches(bg, c, pred, vars, columns, newColumns, pairs, k);
    hide SatisfiesRow;
    SatisfiesAdded(bg, c, pred, vars, RowAt(examples, choices[b].example), choices[b].facts, pairs[k].fact,
                   RowAt(newColumns, k));
  }

  lemma EveryChoiceIsThere(bg: Background, examples: seq<seq<Value>>, c: Clause, pred: nat, vars: Variables,
                           columns: seq<seq<Value>>,
                           choices: seq<Choice>, pairs: seq<Pair>, q: Choice, sigma: seq<Value>)
    requires CanAdd(bg, c, pred, vars) && BindingTableOf(bg, examples, c, columns, choices)
    requires Enumerated(pairs, bg[pred], columns, vars) && forall k | 0 <= k < |pairs| :: pairs[k].binding < |choices|
    requires Satisfies(bg, examples, Added(c, pred, vars), q, sigma)
    ensures q in ExtendedChoices(choices, pairs)
  {
    hide *;
    var f, b := FindRow(bg, examples, c, pred, vars, columns, choices, q, sigma);
    WitnessIsPaired(bg[pred], columns, vars, pairs, f, b);
    var k :| 0 <= k < |pairs| && pairs[k] == Pair(f, b);
    assert q.facts == q.facts[..|q.facts| - 1] + [f];
    assert ExtendedChoices(choices, pairs)[k] == q;
  }

  /** The row of the old table that a choice of the extended clause goes back to. */
  lemma FindRow(bg: Background, examples: seq<seq<Value>>, c: Clause, pred: nat, vars: Variables,
                columns: seq<seq<Value>>,
                choices: seq<Choice>, q: Choice, sigma: seq<Value>)
    returns (f: nat, b: nat)
    requires CanAdd(bg, c, pred, vars) && BindingTableOf(bg, examples, c, columns, choices)
    requires Satisfies(bg, examples, Added(c, pred, vars), q, sigma)
    ensures |q.facts| > 0 && f == q.facts[|q.facts| - 1] && pred < |bg| && f < Rows(bg[pred])
    ensures b < |choices| && choices[b] == Choice(q.example, q.facts[..|q.facts| - 1])
    ensures columns != [] && |columns[0]| == |choices| && Agrees(bg[pred], columns, vars, f, b)
  {
    AddedSplits(bg, examples, c, pred, vars, q, sigma);
    CanAddMeans(bg, c, pred, vars);
    ColumnsAreAsLong(bg, examples, c, columns, choices);
    hide *;
    f := q.facts[|q.facts| - 1];
    b := IndexOf(bg, examples, c, columns, choices, Choice(q.example, q.facts[..|q.facts| - 1]),
                 sigma[..c.numVariables]);
    MatchingFactAgrees(bg, c, pred, vars, columns, f, b, sigma);
  }

  lemma CanAddMeans(bg: Background, c: Clause, pred: nat, vars: Variables)
    requires CanAdd(bg, c, pred, vars)
    ensures c.Valid() && pred < |bg| && c.numVariables > 0
  {
  }

  lemma ColumnsAreAsLong(bg: Background, examples: seq<seq<Value>>, c: Clause, columns: seq<seq<Value>>,
                         choices: seq<Choice>)
    requires BindingTableOf(bg, examples, c, columns, choices)
    ensures |columns| == c.numVariables && forall w | 0 <= w < |columns| :: |columns[w]| == |choices|
  {
    hide Satisfies;
  }

  /** A choice for the extended clause is one for the old clause and a fact. */
  lemma AddedSplits(bg: Background, examples: seq<seq<Value>>, c: Clause, pred: nat, vars: Variables, q: Choice,
                    sigma: seq<Value>)
    requires CanAdd(bg, c, pred, vars) && Satisfies(bg, examples, Added(c, pred, vars), q, sigma)
    ensures q.facts != [] && c.numVariables <= |sigma|
    ensures Satisfies(bg, examples, c, Choice(q.example, q.facts[..|q.facts| - 1]), sigma[..c.numVariables])
    ensures FactMatches(bg[pred], q.facts[|q.facts| - 1], NewLiteral(c, pred, vars), sigma)
  {
    AddedFacts(bg, examples, c, pred, vars, q, sigma);
    var rest, f := q.facts[..|q.facts| - 1], q.facts[|q.facts| - 1];
    assert q.facts == rest + [f];
    hide FactMatches, BodyMatches, Numbered, SatisfiesRow, Rectangular;
    SatisfiesAdded(bg, c, pred, vars, RowAt(examples, q.example), rest, f, sigma);
  }

  lemma AddedFacts(bg: Background, examples: seq<seq<Value>>, c: Clause, pred: nat, vars: Variables, q: Choice,
                   sigma: seq<Value>)
    requires Satisfies(bg, examples, Added(c, pred, vars), q, sigma)
    ensures |q.facts| == |c.body| + 1 && |sigma| == Added(c, pred, vars).numVariables && q.example < Rows(examples)
    ensures SatisfiesRow(bg, Added(c, pred, vars), RowAt(examples, q.example), q.facts, sigma)
  {
    hide FactMatches, Numbered;
  }

  lemma WitnessIsPaired(facts: seq<seq<Value>>, columns: seq<seq<Value>>, vars: Variables, pairs: seq<Pair>, f: nat,
                        b: nat)
    requires Enumerated(pairs, facts, columns, vars) && f < Rows(facts) && columns != [] && b < |columns[0]|
    requires Agrees(facts, columns, vars, f, b)
    ensures exists k :: 0 <= k < |pairs| && pairs[k] == Pair(f, b)
  {
    hide Agrees;
    assert Pair(f, b) in Witnesses(facts, columns, vars);
  }

  /** The row of a choice, which is its only satisfying assignment. */
  lemma IndexOf(bg: Background, examples: seq<seq<Value>>, c: Clause, columns: seq<seq<Value>>, choices: seq<Choice>,
                q: Choice, sigma: seq<Value>)
    returns (b: nat)
    requires c.Valid() && BindingTableOf(bg, examples, c, columns, choices) && Satisfies(bg, examples, c, q, sigma)
    ensures b < |choices| && choices[b] == q && RowAt(columns, b) == sigma
  {
    assert q in choices;
    b :| 0 <= b < |choices| && choices[b] == q;
    assert Satisfies(bg, examples, c, choices[b], RowAt(columns, b));
    AssignmentIsUnique(bg, c, RowAt(examples, q.example), q.facts, RowAt(columns, b), sigma);
  }
}
