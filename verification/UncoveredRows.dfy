/** The examples that no clause of a list covers. */
module UncoveredRows {
  import opened RadixPartition
  import opened BitVectors
  import opened Bindings
  import opened MultiColumnJoin
  import opened Gather
  import opened FoilClauses
  import opened Examples
  import opened ClauseCoverage

  type Row = seq<Value>

  ghost function RowsOf(columns: seq<seq<Value>>): (rows: seq<Row>)
    ensures |rows| == Rows(columns)
  {
    seq(Rows(columns), e requires 0 <= e < Rows(columns) => RowAt(columns, e))
  }

  ghost predicate CoveredByAny(bg: Background, clauses: seq<Clause>, row: Row) {
    exists c :: c in clauses && Covers(bg, c, row)
  }

  /** The rows covered by no clause, in order. */
  ghost function Uncovered(bg: Background, rows: seq<Row>, clauses: seq<Clause>): (r: seq<Row>) {
    if rows == [] then []
    else
      var last := rows[|rows| - 1];
      Uncovered(bg, rows[..|rows| - 1], clauses) + (if CoveredByAny(bg, clauses, last) then [] else [last])
  }

  lemma {:induction false} NothingLearnt(bg: Background, rows: seq<Row>)
    ensures Uncovered(bg, rows, []) == rows
  {
    if rows != [] {
      NothingLearnt(bg, rows[..|rows| - 1]);
    }
  }

  lemma UncoveredSnoc(bg: Background, rows: seq<Row>, row: Row, clauses: seq<Clause>)
    ensures Uncovered(bg, rows + [row], clauses)
            == Uncovered(bg, rows, clauses) + (if CoveredByAny(bg, clauses, row) then [] else [row])
  {
    assert (rows + [row])[..|rows|] == rows;
  }

  lemma CoveredByEither(bg: Background, a: seq<Clause>, b: seq<Clause>, row: Row)
    ensures CoveredByAny(bg, a + b, row) <==> CoveredByAny(bg, a, row) || CoveredByAny(bg, b, row)
  {
    hide Covers;
    if CoveredByAny(bg, a, row) {
      var c :| c in a && Covers(bg, c, row);
      assert c in a + b;
    }
    if CoveredByAny(bg, b, row) {
      var c :| c in b && Covers(bg, c, row);
      assert c in a + b;
    }
  }

  /** Learning more clauses filters what the earlier ones left. */
  lemma {:induction false} UncoveredTwice(bg: Background, rows: seq<Row>, a: seq<Clause>, b: seq<Clause>)
    ensures Uncovered(bg, Uncovered(bg, rows, a), b) == Uncovered(bg, rows, a + b)
  {
    hide CoveredByAny;
    if rows != [] {
      var init, last := rows[..|rows| - 1], rows[|rows| - 1];
      UncoveredTwice(bg, init, a, b);
      CoveredByEither(bg, a, b, last);
      if !CoveredByAny(bg, a, last) {
        UncoveredSnoc(bg, Uncovered(bg, init, a), last, b);
      } else {
        assert Uncovered(bg, rows, a) == Uncovered(bg, init, a);
      }
    }
  }

  /** What is left after more clauses is a part of what was left before. */
  lemma {:induction false} UncoveredIsPart(bg: Background, rows: seq<Row>, clauses: seq<Clause>)
    ensures multiset(Uncovered(bg, rows, clauses)) <= multiset(rows)
    ensures forall row :: row in Uncovered(bg, rows, clauses) ==> row in rows && !CoveredByAny(bg, clauses, row)
  {
    hide CoveredByAny;
    if rows != [] {
      var init, last := rows[..|rows| - 1], rows[|rows| - 1];
      UncoveredIsPart(bg, init, clauses);
      assert rows == init + [last];
    }
  }

  /** The rows that no clause covers are counted by their positions. */
  lemma {:induction false} UncoveredCount(bg: Background, rows: seq<Row>, clauses: seq<Clause>)
    ensures |Uncovered(bg, rows, clauses)| == |set e | 0 <= e < |rows| && !CoveredByAny(bg, clauses, rows[e])|
  {
    hide CoveredByAny;
    var left := set e | 0 <= e < |rows| && !CoveredByAny(bg, clauses, rows[e]);
    if rows != [] {
      var init, n := rows[..|rows| - 1], |rows| - 1;
      UncoveredCount(bg, init, clauses);
      assert forall e | 0 <= e < n :: init[e] == rows[e];
      var before := set e | 0 <= e < |init| && !CoveredByAny(bg, clauses, init[e]);
      assert left == if CoveredByAny(bg, clauses, rows[n]) then before else before + {n};
    }
  }

  /** A row is left as often as it is there, or not at all. */
  lemma {:induction false} UncoveredIsExact(bg: Background, rows: seq<Row>, clauses: seq<Clause>, row: Row)
    ensures multiset(Uncovered(bg, rows, clauses))[row]
         == if exists c :: c in clauses && Covers(bg, c, row) then 0 else multiset(rows)[row]
  {
    hide Covers;
    assert CoveredByAny(bg, clauses, row) <==> exists c :: c in clauses && Covers(bg, c, row);
    if rows != [] {
      var init, last := rows[..|rows| - 1], rows[|rows| - 1];
      UncoveredIsExact(bg, init, clauses, row);
      assert rows == init + [last];
      hide CoveredByAny;
    }
  }

  /** Filtering fewer rows leaves no more. */
  lemma {:induction false} FewerLeft(bg: Background, rows: seq<Row>, a: seq<Clause>, b: seq<Clause>)
    ensures |Uncovered(bg, Uncovered(bg, rows, a), b)| <= |Uncovered(bg, rows, b)|
  {
    hide CoveredByAny;
    if rows != [] {
      var init, last := rows[..|rows| - 1], rows[|rows| - 1];
      FewerLeft(bg, init, a, b);
      if !CoveredByAny(bg, a, last) {
        UncoveredSnoc(bg, Uncovered(bg, init, a), last, b);
      } else {
        assert Uncovered(bg, rows, a) == Uncovered(bg, init, a);
      }
    }
  }

  // ---------------------------------------------------------------------
  // By columns and bits
  // ---------------------------------------------------------------------

  /** The bits tell which rows the clause covers. */
  ghost predicate BitsTell(bg: Background, c: Clause, columns: seq<seq<Value>>, bits: seq<bool>) {
    |bits| == Rows(columns) && forall e | 0 <= e < |bits| :: bits[e] <==> Covers(bg, c, RowAt(columns, e))
  }

  /** The cascade over one more literal tells what the extended clause covers. */
  lemma CascadeTells(bg: Background, test: seq<seq<Value>>, p: Clause, pred: nat, vars: Variables,
                     bindings: seq<seq<Value>>, uncovered: seq<seq<Value>>)
    requires CanAdd(bg, p, pred, vars) && HasTable(bg, test, p, bindings)
    requires |test| == |uncovered| == p.numHead && Rectangular(uncovered) && Within(uncovered, test)
    ensures BitsTell(bg, Added(p, pred, vars), uncovered, CoveredBits(uncovered, bindings, bg[pred], vars, p.numHead))
  {
    var choices :| BindingTableOf(bg, test, p, bindings, choices);
    hide BindingTableOf, CanAdd, IsCovered, Covers, Rectangular, Added;
    forall e | 0 <= e < Rows(uncovered)
      ensures IsCovered(uncovered, e, bindings, bg[pred], vars, p.numHead)
              <==> Covers(bg, Added(p, pred, vars), RowAt(uncovered, e))
    {
      CoveredMeansCovers(bg, test, p, bindings, choices, pred, vars, uncovered, e);
    }
  }

  lemma SingleClause(bg: Background, c: Clause, row: Row)
    ensures CoveredByAny(bg, [c], row) <==> Covers(bg, c, row)
  {
    hide Covers;
    if Covers(bg, c, row) {
      assert c in [c];
    }
  }

  /** Selecting the unmarked rows column by column leaves the rows the clause
      does not cover. */
  lemma {:induction false} SelectedIsUncovered(bg: Background, c: Clause, columns: seq<seq<Value>>, bits: seq<bool>,
                                               n: nat)
    requires n <= |bits| && (forall i | 0 <= i < |columns| :: |bits| <= |columns[i]|)
    requires forall e | 0 <= e < n :: bits[e] <==> Covers(bg, c, RowAt(columns, e))
    ensures var rows := seq(n, e requires 0 <= e < n => RowAt(columns, e));
            var left := Uncovered(bg, rows, [c]);
            && |left| == Ones(Negated(bits[..n]))
            && forall i, k | 0 <= i < |columns| && 0 <= k < |left| ::
                 k < |Selected(columns[i], Negated(bits[..n]))| && |left[k]| == |columns|
                 && Selected(columns[i], Negated(bits[..n]))[k] == left[k][i]
  {
    if n > 0 {
      SelectedIsUncovered(bg, c, columns, bits, n - 1);
      var rows := seq(n, e requires 0 <= e < n => RowAt(columns, e));
      var init := seq(n - 1, e requires 0 <= e < n - 1 => RowAt(columns, e));
      var row := RowAt(columns, n - 1);
      assert rows == init + [row];
      UncoveredSnoc(bg, init, row, [c]);
      SingleClause(bg, c, row);
      forall i | 0 <= i < |columns|
        ensures Selected(columns[i], Negated(bits[..n]))
             == Selected(columns[i], Negated(bits[..n - 1])) + (if bits[n - 1] then [] else [row[i]])
      {
        SelectedStep(columns[i], bits, n);
      }
      OnesStepNegated(bits, n);
      hide Covers, CoveredByAny, Uncovered, Selected, Negated, Ones;
    }
  }

  lemma SelectedStep(values: seq<Value>, bits: seq<bool>, n: nat)
    requires 0 < n <= |bits| <= |values|
    ensures Selected(values, Negated(bits[..n]))
         == Selected(values, Negated(bits[..n - 1])) + (if bits[n - 1] then [] else [values[n - 1]])
  {
    assert Negated(bits[..n])[..n - 1] == Negated(bits[..n - 1]);
  }

  lemma OnesStepNegated(bits: seq<bool>, n: nat)
    requires 0 < n <= |bits|
    ensures Ones(Negated(bits[..n])) == Ones(Negated(bits[..n - 1])) + (if bits[n - 1] then 0 else 1)
  {
    assert Negated(bits[..n])[..n - 1] == Negated(bits[..n - 1]);
  }

  /** The rows of the selected columns. */
  lemma RowsLeft(bg: Background, c: Clause, columns: seq<seq<Value>>, bits: seq<bool>, left: seq<seq<Value>>)
    requires columns != [] && BitsTell(bg, c, columns, bits) && |left| == |columns|
    requires forall i | 0 <= i < |columns| ::
               |columns[i]| == Rows(columns) && left[i] == Selected(columns[i], Negated(bits))
    ensures RowsOf(left) == Uncovered(bg, RowsOf(columns), [c])
    ensures Rows(left) == Ones(Negated(bits))
    ensures forall i | 0 <= i < |left| :: |left[i]| == Rows(left)
  {
    hide Covers, Uncovered, Selected, Negated, Ones;
    var rows := Uncovered(bg, RowsOf(columns), [c]);
    WholeSelection(bg, c, columns, bits);
    forall k | 0 <= k < |rows|
      ensures k < Rows(left) && RowsOf(left)[k] == rows[k]
    {
      forall i | 0 <= i < |left|
        ensures k < |left[i]| && RowAt(left, k)[i] == rows[k][i]
      {
        CellLeft(bg, c, columns, bits, i, k);
        assert left[i] == Selected(columns[i], Negated(bits));
        assert RowAt(left, k)[i] == ValueAt(left[i], k) == left[i][k];
      }
      assert RowAt(left, k) == rows[k];
    }
  }

  lemma WholeSelection(bg: Background, c: Clause, columns: seq<seq<Value>>, bits: seq<bool>)
    requires BitsTell(bg, c, columns, bits) && forall i | 0 <= i < |columns| :: |columns[i]| == Rows(columns)
    ensures |Uncovered(bg, RowsOf(columns), [c])| == Ones(Negated(bits))
    ensures forall k | 0 <= k < |Uncovered(bg, RowsOf(columns), [c])| && columns != [] ::
              |Uncovered(bg, RowsOf(columns), [c])[k]| == |columns|
  {
    SelectedIsUncovered(bg, c, columns, bits, |bits|);
    assert bits[..|bits|] == bits;
    assert RowsOf(columns) == seq(|bits|, e requires 0 <= e < |bits| => RowAt(columns, e));
    hide Covers, Uncovered, Selected, Negated, Ones;
    forall k | 0 <= k < |Uncovered(bg, RowsOf(columns), [c])| && columns != []
      ensures |Uncovered(bg, RowsOf(columns), [c])[k]| == |columns|
    {
      assert 0 < |columns| && k < |Selected(columns[0], Negated(bits[..|bits|]))|;
    }
  }

  lemma CellLeft(bg: Background, c: Clause, columns: seq<seq<Value>>, bits: seq<bool>, i: nat, k: nat)
    requires BitsTell(bg, c, columns, bits) && forall j | 0 <= j < |columns| :: |columns[j]| == Rows(columns)
    requires i < |columns| && k < |Uncovered(bg, RowsOf(columns), [c])|
    ensures k < |Selected(columns[i], Negated(bits))| && |Uncovered(bg, RowsOf(columns), [c])[k]| == |columns|
    ensures Selected(columns[i], Negated(bits))[k] == Uncovered(bg, RowsOf(columns), [c])[k][i]
  {
    SelectedIsUncovered(bg, c, columns, bits, |bits|);
    assert bits[..|bits|] == bits;
    assert RowsOf(columns) == seq(|bits|, e requires 0 <= e < |bits| => RowAt(columns, e));
  }
}
