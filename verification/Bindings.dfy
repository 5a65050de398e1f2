/** Tables by column, the bindings of a clause, and the naive meaning of joining
    a literal with them. */
module Bindings {
  import opened Bits
  import opened RadixPartition
  import opened Tallies

  /** The variable ids of a literal's columns; a negative id is an unbound variable. */
  type Variables = seq<int>

  predicate Rectangular(columns: seq<seq<Value>>) {
    forall c, d | c in columns && d in columns :: |c| == |d|
  }

  /** Positive and negative bindings, in one table with the positives first, or in two. */
  datatype BindingData =
    | Consecutive(columns: seq<seq<Value>>, numPositive: nat)
    | Separate(positiveColumns: seq<seq<Value>>, negativeColumns: seq<seq<Value>>)
  {
    ghost predicate Valid(numVariables: nat) {
      match this
      case Consecutive(cs, n) =>
        && Table(cs, numVariables) && forall c | c in cs :: n <= |c|
      case Separate(ps, ns) => Table(ps, numVariables) && Table(ns, numVariables)
    }

    function Positive(): (cs: seq<seq<Value>>) {
      if Separate? then positiveColumns
      else seq(|columns|,
               i requires 0 <= i < |columns| => if numPositive <= |columns[i]| then columns[i][..numPositive] else [])
    }

    function Negative(): (cs: seq<seq<Value>>) {
      if Separate? then negativeColumns
      else seq(|columns|,
               i requires 0 <= i < |columns| => if numPositive <= |columns[i]| then columns[i][numPositive..] else [])
    }
  }

  ghost predicate Table(columns: seq<seq<Value>>, numColumns: nat) {
    |columns| == numColumns && Rectangular(columns) && forall c | c in columns :: |c| <= Pow2(30)
  }

  // ---------------------------------------------------------------------
  // The naive definition
  // ---------------------------------------------------------------------

  function Rows(columns: seq<seq<Value>>): (n: nat) {
    if columns == [] then 0 else |columns[0]|
  }

  /** Fact row f and binding row b agree on every bound position. */
  ghost predicate Agrees(facts: seq<seq<Value>>, bindings: seq<seq<Value>>, vars: Variables, f: nat, b: nat) {
    forall v | 0 <= v < |vars| && vars[v] >= 0 :: AgreesAt(facts, bindings, v, vars[v], f, b)
  }

  ghost predicate AgreesAt(facts: seq<seq<Value>>, bindings: seq<seq<Value>>, v: nat, w: nat, f: nat, b: nat) {
    v < |facts| && f < |facts[v]| && w < |bindings| && b < |bindings[w]| && facts[v][f] == bindings[w][b]
  }

  ghost function Witnesses(facts: seq<seq<Value>>, bindings: seq<seq<Value>>, vars: Variables): (ws: set<Pair>) {
    set f, b | 0 <= f < Rows(facts) && 0 <= b < Rows(bindings) && Agrees(facts, bindings, vars, f, b) :: Pair(f, b)
  }
}
