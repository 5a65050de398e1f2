/** The candidate literals of one predicate along a clause: from scratch for the
    head alone, and from the previous clause's list when a literal was added
    (learner/CandidateLiteralEnumerator.cpp, for predicates without a key). */
module Enumeration {
  import opened RadixPartition
  import opened Tallies
  import opened Bindings
  import opened JoinMeaning
  import opened BindingTables
  import opened FoilClauses
  import opened ClauseCoverage

  // ---------------------------------------------------------------------
  // What is to be enumerated
  // ---------------------------------------------------------------------

  /** A literal that was found to cover nothing, and the number of variables its
      clause had. */
  datatype Dropped = Dropped(literal: Variables, numVariables: nat)

  /** Every argument is unbound or a variable of its type. */
  ghost predicate WellTyped(v: Variables, types: seq<int>, varTypes: seq<int>) {
    |v| == |types| && forall i | 0 <= i < |v| :: v[i] == -1 || (0 <= v[i] < |varTypes| && varTypes[v[i]] == types[i])
  }

  ghost predicate SomeBound(v: Variables) {
    exists i :: 0 <= i < |v| && v[i] >= 0
  }

  ghost predicate FullyBound(v: Variables) {
    forall i | 0 <= i < |v| :: v[i] >= 0
  }

  /** What is left of a literal if only the first n variables are there. */
  function Restrict(v: Variables, n: nat): (r: Variables)
    ensures |r| == |v| && forall i | 0 <= i < |v| :: r[i] == if v[i] < n then v[i] else -1
  {
    seq(|v|, i requires 0 <= i < |v| => if v[i] < n then v[i] else -1)
  }

  function AllUnbound(n: nat): (v: Variables)
    ensures |v| == n && forall i | 0 <= i < n :: v[i] == -1
  {
    seq(n, _ => -1)
  }

  ghost predicate Expected(v: Variables, types: seq<int>, varTypes: seq<int>, excluded: set<Variables>,
                           dropped: set<Dropped>) {
    && WellTyped(v, types, varTypes) && SomeBound(v) && v !in excluded
    && forall d | d in dropped :: Restrict(v, d.numVariables) != d.literal
  }

  /** Exactly the expected literals, each once. */
  ghost predicate Complete(literals: seq<Variables>, types: seq<int>, varTypes: seq<int>, excluded: set<Variables>,
                           dropped: set<Dropped>) {
    Distinct(literals) && forall v :: v in literals <==> Expected(v, types, varTypes, excluded, dropped)
  }

  // ---------------------------------------------------------------------
  // One argument
  // ---------------------------------------------------------------------

  ghost function Appended(literals: seq<Variables>, x: int): (r: seq<Variables>)
    ensures |r| == |literals| && forall j | 0 <= j < |r| :: r[j] == literals[j] + [x]
  {
    seq(|literals|, j requires 0 <= j < |literals| => literals[j] + [x])
  }

  /** One literal with each of the candidates from the second to the n-th. */
  ghost function Others(literal: Variables, candidates: seq<int>, n: nat): (r: seq<Variables>)
    requires 0 < n <= |candidates|
    ensures |r| == n - 1 && forall i | 0 <= i < n - 1 :: r[i] == literal + [candidates[i + 1]]
  {
    seq(n - 1, i requires 0 <= i < n - 1 => literal + [candidates[i + 1]])
  }

  ghost function AllOthers(literals: seq<Variables>, candidates: seq<int>): (r: seq<Variables>)
    requires candidates != []
  {
    if literals == [] then []
    else AllOthers(literals[..|literals| - 1], candidates) + Others(literals[|literals| - 1], candidates, |candidates|)
  }

  method CopiesWithOthers(literal: Variables, candidates: seq<int>) returns (r: seq<Variables>)
    requires candidates != []
    ensures r == Others(literal, candidates, |candidates|)
  {
    r := [];
    for i := 1 to |candidates|
      invariant r == Others(literal, candidates, i)
    {
      r := r + [literal + [candidates[i]]];
    }
  }

  lemma OneMoreFilled(literals: seq<Variables>, candidates: seq<int>, j: nat)
    requires candidates != [] && j < |literals|
    ensures Appended(literals[..j + 1], candidates[0])
            == Appended(literals[..j], candidates[0]) + [literals[j] + [candidates[0]]]
    ensures AllOthers(literals[..j + 1], candidates)
         == AllOthers(literals[..j], candidates) + Others(literals[j], candidates, |candidates|)
  {
    hide *;
    assert literals[..j + 1] == literals[..j] + [literals[j]];
    AppendedSnoc(literals[..j], literals[j], candidates[0]);
    AllOthersSnoc(literals[..j], literals[j], candidates);
  }

  lemma AllOthersSnoc(literals: seq<Variables>, literal: Variables, candidates: seq<int>)
    requires candidates != []
    ensures AllOthers(literals + [literal], candidates)
            == AllOthers(literals, candidates) + Others(literal, candidates, |candidates|)
  {
    hide Others;
    var more := literals + [literal];
    assert more[..|more| - 1] == literals;
  }

  lemma AppendedSnoc(literals: seq<Variables>, literal: Variables, x: int)
    ensures Appended(literals + [literal], x) == Appended(literals, x) + [literal + [x]]
  {
  }

  /** Literals take the first candidate in place; copies with the others follow. */
  method FillArgument(literals: seq<Variables>, candidates: seq<int>) returns (r: seq<Variables>)
    requires candidates != []
    ensures r == Appended(literals, candidates[0]) + AllOthers(literals, candidates)
  {
    NothingFilled(literals, candidates);
    hide *;
    var filled, added: seq<Variables> := literals, [];
    for j := 0 to |literals|
      invariant |filled| == |literals| && filled[..j] == Appended(literals[..j], candidates[0])
                && filled[j..] == literals[j..]
      invariant added == AllOthers(literals[..j], candidates)
    {
      OneMoreFilled(literals, candidates, j);
      assert filled[j] == filled[j..][0] == literals[j];
      var copies := CopiesWithOthers(filled[j], candidates);
      added := added + copies;
      ghost var before := filled;
      filled := filled[j := filled[j] + [candidates[0]]];
      assert filled[..j + 1] == before[..j] + [before[j] + [candidates[0]]];
      assert filled[j + 1..] == before[j..][1..] == literals[j..][1..] == literals[j + 1..];
    }
    assert literals[..|literals|] == literals && filled[..|literals|] == filled;
    r := filled + added;
  }

  lemma NothingFilled(literals: seq<Variables>, candidates: seq<int>)
    requires candidates != []
    ensures Appended(literals[..0], candidates[0]) == [] && AllOthers(literals[..0], candidates) == []
  {
  }

  // ---------------------------------------------------------------------
  // All arguments
  // ---------------------------------------------------------------------

  ghost predicate Chosen(v: Variables, choices: seq<seq<int>>, n: nat) {
    |v| == n <= |choices| && forall i | 0 <= i < n :: v[i] in choices[i]
  }

  ghost predicate ChoicesOk(choices: seq<seq<int>>) {
    forall i | 0 <= i < |choices| :: choices[i] != [] && Distinct(choices[i])
  }

  ghost function Lasts(choices: seq<seq<int>>, n: nat): (v: Variables)
    requires ChoicesOk(choices) && n <= |choices|
    ensures |v| == n && forall i | 0 <= i < n :: v[i] == choices[i][|choices[i]| - 1]
  {
    seq(n, i requires 0 <= i < n => choices[i][|choices[i]| - 1])
  }

  /** Every way to choose the first n arguments, once, and the last choices last. */
  ghost predicate ListsAll(literals: seq<Variables>, choices: seq<seq<int>>, n: nat) {
    && ChoicesOk(choices) && n <= |choices| && Distinct(literals)
    && (forall v :: v in literals <==> Chosen(v, choices, n))
    && literals != [] && literals[|literals| - 1] == Lasts(choices, n)
  }

  lemma {:induction false} AllOthersMembers(literals: seq<Variables>, candidates: seq<int>, v: Variables)
    requires candidates != []
    ensures v in AllOthers(literals, candidates)
            <==> v != [] && v[..|v| - 1] in literals && v[|v| - 1] in candidates[1..]
  {
    if literals != [] {
      var init, last := literals[..|literals| - 1], literals[|literals| - 1];
      assert literals == init + [last];
      AllOthersMembers(init, candidates, v);
      OthersMembers(last, candidates, v);
    }
  }

  lemma OthersMembers(literal: Variables, candidates: seq<int>, v: Variables)
    requires candidates != []
    ensures v in Others(literal, candidates, |candidates|)
            <==> v != [] && v[..|v| - 1] == literal && v[|v| - 1] in candidates[1..]
  {
    var r := Others(literal, candidates, |candidates|);
    if v in r {
      var i :| 0 <= i < |r| && r[i] == v;
      assert v[..|v| - 1] == literal && v[|v| - 1] == candidates[1..][i];
    }
    if v != [] && v[..|v| - 1] == literal && v[|v| - 1] in candidates[1..] {
      var i :| 0 <= i < |candidates| - 1 && candidates[1..][i] == v[|v| - 1];
      assert v == literal + [candidates[i + 1]] == r[i];
    }
  }

  lemma AppendedMembers(literals: seq<Variables>, x: int, v: Variables)
    ensures v in Appended(literals, x) <==> v != [] && v[..|v| - 1] in literals && v[|v| - 1] == x
  {
    var r := Appended(literals, x);
    if v in r {
      var j :| 0 <= j < |r| && r[j] == v;
      assert v[..|v| - 1] == literals[j];
    }
    if v != [] && v[..|v| - 1] in literals && v[|v| - 1] == x {
      var j :| 0 <= j < |literals| && literals[j] == v[..|v| - 1];
      assert v == r[j];
    }
  }

  lemma AppendedDistinct(literals: seq<Variables>, x: int)
    requires Distinct(literals)
    ensures Distinct(Appended(literals, x))
  {
    var r := Appended(literals, x);
    forall i, j | 0 <= i < j < |r|
      ensures r[i] != r[j]
    {
      assert r[i][..|r[i]| - 1] == literals[i] && r[j][..|r[j]| - 1] == literals[j];
    }
  }

  lemma {:induction false} AllOthersDistinct(literals: seq<Variables>, candidates: seq<int>)
    requires candidates != [] && Distinct(literals) && Distinct(candidates)
    ensures Distinct(AllOthers(literals, candidates))
  {
    if literals != [] {
      var init, last := literals[..|literals| - 1], literals[|literals| - 1];
      AllOthersDistinct(init, candidates);
      OthersDistinct(last, candidates);
      forall v | v in AllOthers(init, candidates)
        ensures v !in Others(last, candidates, |candidates|)
      {
        AllOthersMembers(init, candidates, v);
        OthersMembers(last, candidates, v);
      }
      DistinctConcat(AllOthers(init, candidates), Others(last, candidates, |candidates|));
    }
  }

  lemma OthersDistinct(literal: Variables, candidates: seq<int>)
    requires candidates != [] && Distinct(candidates)
    ensures Distinct(Others(literal, candidates, |candidates|))
  {
    var r := Others(literal, candidates, |candidates|);
    forall i, j | 0 <= i < j < |r|
      ensures r[i] != r[j]
    {
      assert r[i][|literal|] == candidates[i + 1] && r[j][|literal|] == candidates[j + 1];
    }
  }

  lemma FilledDistinct(literals: seq<Variables>, candidates: seq<int>)
    requires candidates != [] && Distinct(literals) && Distinct(candidates)
    ensures Distinct(Appended(literals, candidates[0]) + AllOthers(literals, candidates))
  {
    AppendedDistinct(literals, candidates[0]);
    AllOthersDistinct(literals, candidates);
    assert candidates[0] !in candidates[1..];
    forall v | v in Appended(literals, candidates[0])
      ensures v !in AllOthers(literals, candidates)
    {
      AppendedMembers(literals, candidates[0], v);
      AllOthersMembers(literals, candidates, v);
    }
    hide Appended, AllOthers, Distinct;
    DistinctConcat(Appended(literals, candidates[0]), AllOthers(literals, candidates));
  }

  lemma FilledMembers(literals: seq<Variables>, choices: seq<seq<int>>, n: nat, v: Variables)
    requires n < |choices| && choices[n] != [] && forall u :: u in literals <==> Chosen(u, choices, n)
    ensures v in Appended(literals, choices[n][0]) + AllOthers(literals, choices[n]) <==> Chosen(v, choices, n + 1)
  {
    AppendedMembers(literals, choices[n][0], v);
    AllOthersMembers(literals, choices[n], v);
    assert choices[n] == [choices[n][0]] + choices[n][1..];
    if v != [] {
      assert Chosen(v, choices, n + 1) <==> Chosen(v[..|v| - 1], choices, n) && v[|v| - 1] in choices[n];
    }
  }

  lemma FilledLast(literals: seq<Variables>, candidates: seq<int>)
    requires literals != [] && candidates != []
    ensures var r := Appended(literals, candidates[0]) + AllOthers(literals, candidates);
            r != [] && r[|r| - 1] == literals[|literals| - 1] + [candidates[|candidates| - 1]]
  {
    if |candidates| == 1 {
      NoOthers(literals, candidates);
    }
  }

  lemma {:induction false} NoOthers(literals: seq<Variables>, candidates: seq<int>)
    requires |candidates| == 1
    ensures AllOthers(literals, candidates) == []
  {
    if literals != [] {
      NoOthers(literals[..|literals| - 1], candidates);
    }
  }

  lemma FilledListsAll(literals: seq<Variables>, choices: seq<seq<int>>, n: nat)
    requires ListsAll(literals, choices, n) && n < |choices|
    ensures ListsAll(Appended(literals, choices[n][0]) + AllOthers(literals, choices[n]), choices, n + 1)
  {
    FilledDistinct(literals, choices[n]);
    FilledLast(literals, choices[n]);
    assert Lasts(choices, n + 1) == Lasts(choices, n) + [choices[n][|choices[n]| - 1]];
    hide Appended, AllOthers, Distinct, Chosen;
    forall v
      ensures v in Appended(literals, choices[n][0]) + AllOthers(literals, choices[n]) <==> Chosen(v, choices, n + 1)
    {
      FilledMembers(literals, choices, n, v);
    }
  }

  lemma NothingChosen(choices: seq<seq<int>>)
    requires ChoicesOk(choices)
    ensures ListsAll([[]], choices, 0)
  {
    assert forall v :: v in [[]] <==> Chosen(v, choices, 0);
  }

  method GenerateCandidateLiterals(numFilled: nat, choices: seq<seq<int>>, literals: seq<Variables>)
    returns (r: seq<Variables>)
    requires numFilled < |choices| && ListsAll(literals, choices, numFilled)
    ensures ListsAll(r, choices, |choices|)
    decreases |choices| - numFilled
  {
    FilledListsAll(literals, choices, numFilled);
    assert choices[numFilled] != [];
    hide ListsAll;
    r := FillArgument(literals, choices[numFilled]);
    if numFilled + 1 < |choices| {
      r := GenerateCandidateLiterals(numFilled + 1, choices, r);
    }
  }

  /** Bound arguments of the base literal are fixed. */
  ghost function Narrowed(base: Variables, choices: seq<seq<int>>): (r: seq<seq<int>>)
    requires |base| == |choices|
    ensures |r| == |choices| && forall i | 0 <= i < |r| :: r[i] == if base[i] >= 0 then [base[i]] else choices[i]
  {
    seq(|choices|, i requires 0 <= i < |choices| => if base[i] >= 0 then [base[i]] else choices[i])
  }

  method AddVariable(literals: seq<Variables>, x: int) returns (r: seq<Variables>)
    ensures r == Appended(literals, x)
  {
    r := literals;
    for j := 0 to |r|
      invariant |r| == |literals| && r == Appended(literals[..j], x) + literals[j..]
    {
      r := r[j := r[j] + [x]];
    }
  }

  /** The next argument of the base literal, or a choice for it. */
  method FillFrom(base: Variables, numFilled: nat, choices: seq<seq<int>>, literals: seq<Variables>)
    returns (r: seq<Variables>)
    requires |base| == |choices| && numFilled < |choices| && ListsAll(literals, Narrowed(base, choices), numFilled)
    ensures ListsAll(r, Narrowed(base, choices), numFilled + 1)
  {
    ghost var narrowed := Narrowed(base, choices);
    FilledListsAll(literals, narrowed, numFilled);
    assert choices[numFilled] != [] || base[numFilled] >= 0;
    hide ListsAll;
    if base[numFilled] >= 0 {
      NoOthers(literals, narrowed[numFilled]);
      r := AddVariable(literals, base[numFilled]);
      assert narrowed[numFilled] == [base[numFilled]] && r == r + [];
    } else {
      assert narrowed[numFilled] == choices[numFilled];
      r := FillArgument(literals, choices[numFilled]);
    }
  }

  method GenerateCandidateLiteralsFromAnother(base: Variables, numFilled: nat, choices: seq<seq<int>>,
                                              literals: seq<Variables>)
    returns (r: seq<Variables>)
    requires |base| == |choices| && numFilled < |choices| && ListsAll(literals, Narrowed(base, choices), numFilled)
    ensures ListsAll(r, Narrowed(base, choices), |choices|)
    decreases |choices| - numFilled
  {
    hide ListsAll;
    r := FillFrom(base, numFilled, choices, literals);
    if numFilled + 1 < |choices| {
      r := GenerateCandidateLiteralsFromAnother(base, numFilled + 1, choices, r);
    }
  }

  // ---------------------------------------------------------------------
  // The variables to choose from
  // ---------------------------------------------------------------------

  /** The types of the new variables of a literal. */
  ghost function NewTypes(args: Variables, types: seq<int>, n: nat): (r: seq<int>)
    requires n <= |args| == |types|
    ensures |r| == |Unbound(args, n)|
  {
    if n == 0 then [] else if args[n - 1] < 0 then NewTypes(args, types, n - 1) + [types[n - 1]]
        else NewTypes(args, types, n - 1)
  }

  ghost predicate ByType(byType: map<int, seq<int>>, newTypes: seq<int>, base: nat) {
    && (forall t, x | t in byType && x in byType[t] :: base <= x < base + |newTypes| && newTypes[x - base] == t)
    && (forall k | 0 <= k < |newTypes| :: newTypes[k] in byType && base + k in byType[newTypes[k]])
    && forall t | t in byType :: Distinct(byType[t])
  }

  lemma OneMoreVariable(byType: map<int, seq<int>>, newTypes: seq<int>, base: nat, t: int)
    requires ByType(byType, newTypes, base)
    ensures var before := if t in byType then byType[t] else [];
            ByType(byType[t := before + [base + |newTypes|]], newTypes + [t], base)
  {
    var before, id, more := if t in byType then byType[t] else [], base + |newTypes|, newTypes + [t];
    var after := byType[t := before + [id]];
    assert id in after[t] && id !in before;
    forall k | 0 <= k < |more|
      ensures more[k] in after && base + k in after[more[k]]
    {
      assert k < |newTypes| ==> more[k] == newTypes[k];
      assert forall x | x in before :: x in after[t];
    }
  }

  lemma CandidatesOf(byType: map<int, seq<int>>, newTypes: seq<int>, base: nat, t: int)
    requires ByType(byType, newTypes, base)
    ensures var candidates := if t in byType then byType[t] else [];
            && Distinct(candidates + [-1])
            && forall x :: x in candidates <==> base <= x < base + |newTypes| && newTypes[x - base] == t
  {
    var candidates := if t in byType then byType[t] else [];
    forall x
      ensures x in candidates <==> base <= x < base + |newTypes| && newTypes[x - base] == t
    {
      if base <= x < base + |newTypes| && newTypes[x - base] == t {
        assert base + (x - base) in byType[newTypes[x - base]];
      }
    }
    assert forall i | 0 <= i < |candidates| :: candidates[i] in candidates;
  }

  /** The new variables of a literal of the clause, by type. */
  method NewVariablesByType(variables: seq<nat>, types: seq<int>, base: nat, ghost args: Variables)
    returns (byType: map<int, seq<int>>)
    requires |args| == |types| && variables == Numbered(args, |args|, base) && forall v | 0 <= v < |args| ::
               args[v] < base
    ensures ByType(byType, NewTypes(args, types, |args|), base)
  {
    hide NewTypes, Numbered, ByType;
    byType := map[];
    NoVariables(args, types, base);
    for v := 0 to |variables|
      invariant ByType(byType, NewTypes(args, types, v), base)
    {
      NewVariableAt(args, types, base, v);
      if variables[v] >= base {
        byType := InsertVariable(byType, types[v], variables[v], NewTypes(args, types, v), base);
      }
    }
  }

  method InsertVariable(byType: map<int, seq<int>>, t: int, id: nat, ghost newTypes: seq<int>, ghost base: nat)
    returns (r: map<int, seq<int>>)
    requires ByType(byType, newTypes, base) && id == base + |newTypes|
    ensures ByType(r, newTypes + [t], base)
  {
    OneMoreVariable(byType, newTypes, base, t);
    r := byType[t := (if t in byType then byType[t] else []) + [id]];
  }

  lemma NoVariables(args: Variables, types: seq<int>, base: nat)
    requires |args| == |types|
    ensures ByType(map[], NewTypes(args, types, 0), base)
  {
  }

  lemma NewVariableAt(args: Variables, types: seq<int>, base: nat, v: nat)
    requires v < |args| == |types| && args[v] < base
    ensures var id := Numbered(args, |args|, base)[v];
            if id >= base
            then id == base + |NewTypes(args, types, v)|
            && NewTypes(args, types, v + 1) == NewTypes(args, types, v) + [types[v]]
            else NewTypes(args, types, v + 1) == NewTypes(args, types, v)
  {
    NumberedAt(args, |args|, base, v);
  }

  /** The choices for every argument: the new variables of its type, and none. */
  ghost predicate ChoicesFor(choices: seq<seq<int>>, types: seq<int>, newTypes: seq<int>, base: nat) {
    && ChoicesOk(choices) && |choices| == |types|
    && forall i | 0 <= i < |choices| ::
         && choices[i][|choices[i]| - 1] == -1
         && forall x ::
              x in choices[i] <==> x == -1 || (base <= x < base + |newTypes| && newTypes[x - base] == types[i])
  }

  method GenerateVariableVectorForPredicate(byType: map<int, seq<int>>, types: seq<int>, ghost newTypes: seq<int>,
                                            ghost base: nat)
    returns (choices: seq<seq<int>>)
    requires ByType(byType, newTypes, base)
    ensures ChoicesFor(choices, types, newTypes, base)
  {
    choices := [];
    for i := 0 to |types|
      invariant |choices| == i && ChoicesFor(choices, types[..i], newTypes, base)
    {
      var candidates: seq<int> := if types[i] in byType then byType[types[i]] else [];
      CandidatesOf(byType, newTypes, base, types[i]);
      choices := choices + [candidates + [-1]];
    }
    assert types[..|types|] == types;
  }

  // ---------------------------------------------------------------------
  // The literals that a root leads to
  // ---------------------------------------------------------------------

  /** Choosing among the new variables for the unbound arguments of a root leads to
      the literals over all variables that restrict to the root. */
  lemma ChosenRestricts(root: Variables, choices: seq<seq<int>>, types: seq<int>, varTypes: seq<int>,
                        newTypes: seq<int>, v: Variables)
    requires ChoicesFor(choices, types, newTypes, |varTypes|) && WellTyped(root, types, varTypes)
    ensures Chosen(v, Narrowed(root, choices), |choices|)
            <==> WellTyped(v, types, varTypes + newTypes) && Restrict(v, |varTypes|) == root
  {
    if |v| == |types| {
      forall i | 0 <= i < |v|
        ensures v[i] in Narrowed(root, choices)[i]
                <==> (v[i] == -1 || (0 <= v[i] < |varTypes + newTypes| && (varTypes + newTypes)[v[i]] == types[i]))
                     && Restrict(v, |varTypes|)[i] == root[i]
      {
      }
    }
  }

  lemma NarrowedIsOk(root: Variables, choices: seq<seq<int>>, types: seq<int>, varTypes: seq<int>, newTypes: seq<int>)
    requires ChoicesFor(choices, types, newTypes, |varTypes|) && WellTyped(root, types, varTypes)
    ensures |root| == |choices| && ChoicesOk(Narrowed(root, choices))
            && Lasts(Narrowed(root, choices), |choices|) == root
  {
  }

  /** All literals over the new variables too that restrict to the root, other than
      the root itself. */
  ghost predicate ExtensionsOf(literals: seq<Variables>, root: Variables, types: seq<int>, varTypes: seq<int>,
                               newTypes: seq<int>) {
    && Distinct(literals)
    && forall v ::
         v in literals <==> WellTyped(v, types, varTypes + newTypes) && Restrict(v, |varTypes|) == root && v != root
  }

  lemma WithoutLast(literals: seq<Variables>, root: Variables, choices: seq<seq<int>>, types: seq<int>,
                    varTypes: seq<int>, newTypes: seq<int>)
    requires ChoicesFor(choices, types, newTypes, |varTypes|) && WellTyped(root, types, varTypes)
    requires |root| == |choices| && ListsAll(literals, Narrowed(root, choices), |choices|)
    ensures literals != [] && ExtensionsOf(literals[..|literals| - 1], root, types, varTypes, newTypes)
  {
    NarrowedIsOk(root, choices, types, varTypes, newTypes);
    var rest := literals[..|literals| - 1];
    assert literals == rest + [root];
    hide ChoicesFor, ChoicesOk, Chosen, WellTyped;
    assert Distinct(rest);
    forall v
      ensures v in rest <==> WellTyped(v, types, varTypes + newTypes) && Restrict(v, |varTypes|) == root && v != root
    {
      ChosenRestricts(root, choices, types, varTypes, newTypes, v);
      assert v in literals <==> v in rest || v == root;
    }
  }

  /** The literals with at least one new variable and no old one. */
  method LiteralsWithNewVariablesOnly(choices: seq<seq<int>>, ghost types: seq<int>, ghost varTypes: seq<int>,
                                      ghost newTypes: seq<int>)
    returns (literals: seq<Variables>)
    requires ChoicesFor(choices, types, newTypes, |varTypes|) && types != []
    ensures ExtensionsOf(literals, AllUnbound(|types|), types, varTypes, newTypes)
  {
    ghost var root := AllUnbound(|types|);
    assert Narrowed(root, choices) == choices;
    NothingChosen(choices);
    literals := GenerateCandidateLiterals(0, choices, [[]]);
    WithoutLast(literals, root, choices, types, varTypes, newTypes);
    literals := literals[..|literals| - 1];
  }

  method ExtendOldLiteral(oldLiteral: Variables, choices: seq<seq<int>>, ghost types: seq<int>,
                          ghost varTypes: seq<int>, ghost newTypes: seq<int>)
    returns (literals: seq<Variables>)
    requires ChoicesFor(choices, types, newTypes, |varTypes|) && types != [] && WellTyped(oldLiteral, types, varTypes)
    ensures ExtensionsOf(literals, oldLiteral, types, varTypes, newTypes)
  {
    NarrowedIsOk(oldLiteral, choices, types, varTypes, newTypes);
    NothingChosen(Narrowed(oldLiteral, choices));
    literals := GenerateCandidateLiteralsFromAnother(oldLiteral, 0, choices, [[]]);
    WithoutLast(literals, oldLiteral, choices, types, varTypes, newTypes);
    literals := literals[..|literals| - 1];
  }

  // ---------------------------------------------------------------------
  // The head alone
  // ---------------------------------------------------------------------

  /** The head's arguments are the first variables, in order. */
  function HeadArgs(n: nat): (args: Variables)
    ensures |args| == n && forall i | 0 <= i < n :: args[i] == i
  {
    seq(n, i => i)
  }

  lemma {:induction false} HeadIsNumbered(n: nat, types: seq<int>, m: nat)
    requires m <= n == |types|
    ensures |Unbound(AllUnbound(n), m)| == m && Numbered(AllUnbound(n), m, 0) == HeadArgs(m)
    ensures NewTypes(AllUnbound(n), types, m) == types[..m]
  {
    if m > 0 {
      HeadIsNumbered(n, types, m - 1);
    }
  }

  ghost function HeadExcluded(isHeadPredicate: bool, n: nat): (excluded: set<Variables>) {
    if isHeadPredicate then {HeadArgs(n)} else {}
  }

  /** From scratch, for a predicate that may be the head's own. */
  method EnumerateFromScratch(types: seq<int>, headTypes: seq<int>, isHeadPredicate: bool)
    returns (literals: seq<Variables>)
    requires types != []
    ensures Complete(literals, types, headTypes, HeadExcluded(isHeadPredicate, |headTypes|), {})
  {
    var n := |headTypes|;
    HeadIsNumbered(n, headTypes, n);
    assert headTypes[..n] == headTypes;
    var byType := NewVariablesByType(HeadArgs(n), headTypes, 0, AllUnbound(n));
    var choices := GenerateVariableVectorForPredicate(byType, types, headTypes, 0);
    var all := LiteralsWithNewVariablesOnly(choices, types, [], headTypes);
    HeadOnly(all, types, headTypes);
    if isHeadPredicate {
      literals := Without(all, HeadArgs(n));
    } else {
      literals := all;
    }
  }

  lemma HeadOnly(literals: seq<Variables>, types: seq<int>, headTypes: seq<int>)
    requires ExtensionsOf(literals, AllUnbound(|types|), types, [], headTypes)
    ensures Complete(literals, types, headTypes, {}, {})
  {
    assert [] + headTypes == headTypes;
    forall v | WellTyped(v, types, headTypes)
      ensures Restrict(v, 0) == AllUnbound(|types|)
      ensures SomeBound(v) <==> v != AllUnbound(|types|)
    {
    }
  }

  method Without(all: seq<Variables>, head: Variables) returns (literals: seq<Variables>)
    requires Distinct(all)
    ensures Distinct(literals) && forall v :: v in literals <==> v in all && v != head
  {
    literals := [];
    for i := 0 to |all|
      invariant Distinct(literals)
      invariant forall v :: v in literals <==> v in all[..i] && v != head
    {
      if all[i] != head {
        assert all[i] !in all[..i];
        literals := literals + [all[i]];
      }
    }
  }

  // ---------------------------------------------------------------------
  // From the previous clause's list
  // ---------------------------------------------------------------------

  /** The literals that restrict to one of the roots, other than the removed ones. */
  ghost predicate LedFrom(literals: seq<Variables>, roots: set<Variables>, removed: set<Variables>, types: seq<int>,
                          varTypes: seq<int>,
                          newTypes: seq<int>)
  {
    && Distinct(literals)
    && forall v :: v in literals <==>
         WellTyped(v, types, varTypes + newTypes) && Restrict(v, |varTypes|) in roots && v !in removed
  }

  lemma OneMoreRoot(literals: seq<Variables>, roots: set<Variables>, removed: set<Variables>, types: seq<int>,
                    varTypes: seq<int>,
                    newTypes: seq<int>, root: Variables, extensions: seq<Variables>)
    requires LedFrom(literals, roots, removed, types, varTypes, newTypes) && root !in roots
    requires removed <= roots && forall v | v in removed :: Restrict(v, |varTypes|) == v
    requires ExtensionsOf(extensions, root, types, varTypes, newTypes) && WellTyped(root, types, varTypes)
    ensures Restrict(root, |varTypes|) == root
    ensures LedFrom(literals + extensions, roots + {root}, removed + {root}, types, varTypes, newTypes)
    ensures LedFrom(literals + extensions + [root], roots + {root}, removed, types, varTypes, newTypes)
  {
    assert Restrict(root, |varTypes|) == root;
    assert WellTyped(root, types, varTypes + newTypes);
    hide WellTyped;
    DistinctConcat(literals, extensions);
    assert root !in literals + extensions;
    DistinctConcat(literals + extensions, [root]);
  }

  ghost function Roots(oldLiterals: seq<Variables>, pruned: set<Variables>, arity: nat): (roots: set<Variables>) {
    {AllUnbound(arity)} + set o | o in oldLiterals && o !in pruned
  }

  ghost function Removed(oldLiterals: seq<Variables>, pruned: set<Variables>, arity: nat, samePredicate: bool,
                         body: seq<nat>): (r: set<Variables>) {
    {AllUnbound(arity)} + set o | o in oldLiterals && o !in pruned && samePredicate && o == body
  }

  lemma FirstRoot(literals: seq<Variables>, pruned: set<Variables>, samePredicate: bool, body: seq<nat>,
                  types: seq<int>, varTypes: seq<int>,
                  newTypes: seq<int>)
    requires ExtensionsOf(literals, AllUnbound(|types|), types, varTypes, newTypes)
    ensures LedFrom(literals, Roots([], pruned, |types|), Removed([], pruned, |types|, samePredicate, body), types,
                    varTypes, newTypes)
  {
    hide WellTyped;
  }

  /** What the next old literal adds. */
  lemma NextRoot(literals: seq<Variables>, oldLiterals: seq<Variables>, k: nat, pruned: set<Variables>,
                 samePredicate: bool, body: seq<nat>,
                 types: seq<int>, varTypes: seq<int>, newTypes: seq<int>, extensions: seq<Variables>)
    requires k < |oldLiterals| && Distinct(oldLiterals)
    requires forall o | o in oldLiterals :: WellTyped(o, types, varTypes) && SomeBound(o)
    requires LedFrom(literals, Roots(oldLiterals[..k], pruned, |types|),
                     Removed(oldLiterals[..k], pruned, |types|, samePredicate, body), types, varTypes, newTypes)
    requires oldLiterals[k] !in pruned ==> ExtensionsOf(extensions, oldLiterals[k], types, varTypes, newTypes)
    ensures var more := if oldLiterals[k] in pruned then literals
                        else literals + extensions + if samePredicate
                        && body == oldLiterals[k] then [] else [oldLiterals[k]];
            LedFrom(more, Roots(oldLiterals[..k + 1], pruned, |types|),
                    Removed(oldLiterals[..k + 1], pruned, |types|, samePredicate, body), types, varTypes, newTypes)
  {
    var o := oldLiterals[k];
    var roots, removed := Roots(oldLiterals[..k], pruned, |types|),
        Removed(oldLiterals[..k], pruned, |types|, samePredicate, body);
    assert oldLiterals[..k + 1] == oldLiterals[..k] + [o];
    assert o in oldLiterals && o !in oldLiterals[..k];
    if o in pruned {
      assert Roots(oldLiterals[..k + 1], pruned, |types|) == roots;
      assert Removed(oldLiterals[..k + 1], pruned, |types|, samePredicate, body) == removed;
    } else {
      assert Roots(oldLiterals[..k + 1], pruned, |types|) == roots + {o};
      assert Removed(oldLiterals[..k + 1], pruned, |types|, samePredicate, body)
          == if samePredicate && o == body then removed + {o} else removed;
      OldStays(oldLiterals, k, types, varTypes);
      assert o !in roots;
      hide LedFrom, ExtensionsOf, WellTyped, Roots;
      OneMoreRoot(literals, roots, removed, types, varTypes, newTypes, o, extensions);
      assert literals + extensions + [] == literals + extensions;
    }
  }

  lemma OldStays(oldLiterals: seq<Variables>, k: nat, types: seq<int>, varTypes: seq<int>)
    requires k < |oldLiterals| && forall o | o in oldLiterals :: WellTyped(o, types, varTypes) && SomeBound(o)
    ensures forall o | o in oldLiterals[..k] :: Restrict(o, |varTypes|) == o
    ensures Restrict(AllUnbound(|types|), |varTypes|) == AllUnbound(|types|) && oldLiterals[k] != AllUnbound(|types|)
    ensures WellTyped(oldLiterals[k], types, varTypes)
  {
    assert oldLiterals[k] in oldLiterals;
    forall o | o in oldLiterals[..k]
      ensures Restrict(o, |varTypes|) == o
    {
      assert o in oldLiterals;
    }
  }

  /** Excluded literals are fully bound, dropped ones are older than the clause. */
  ghost predicate HistoryOk(excluded: set<Variables>, dropped: set<Dropped>, numVariables: nat) {
    && (forall e, i | e in excluded && 0 <= i < |e| :: 0 <= e[i] < numVariables)
    && forall d | d in dropped :: d.numVariables <= numVariables && SomeBound(d.literal)
  }

  ghost function ExcludedNext(excluded: set<Variables>, samePredicate: bool, args: Variables): (r: set<Variables>) {
    if samePredicate && FullyBound(args) then excluded + {args} else excluded
  }

  ghost function DroppedNext(dropped: set<Dropped>, pruned: set<Variables>, numVariables: nat): (r: set<Dropped>) {
    dropped + set w | w in pruned :: Dropped(w, numVariables)
  }

  /** The root of an expected literal is an old literal that was not pruned. */
  lemma RootIsExpected(v: Variables, types: seq<int>, varTypes: seq<int>, newTypes: seq<int>, excluded: set<Variables>,
                       dropped: set<Dropped>,
                       pruned: set<Variables>)
    requires WellTyped(v, types, varTypes + newTypes) && types != [] && HistoryOk(excluded, dropped, |varTypes|)
    requires forall w | w in pruned :: SomeBound(w)
    ensures var root := Restrict(v, |varTypes|);
            Expected(v, types, varTypes + newTypes, excluded, DroppedNext(dropped, pruned, |varTypes|))
            <==> v != AllUnbound(|types|)
                 && (root == AllUnbound(|types|)
                     || (Expected(root, types, varTypes, excluded, dropped) && root !in pruned))
  {
    var root, n := Restrict(v, |varTypes|), |varTypes|;
    assert WellTyped(root, types, varTypes);
    assert SomeBound(v) <==> v != AllUnbound(|types|);
    assert SomeBound(root) <==> root != AllUnbound(|types|);
    SameExclusion(v, n, excluded, dropped);
    SameDrops(v, n, excluded, dropped);
    assert SomeBound(root) ==> SomeBound(v);
    forall d | d in DroppedNext({}, pruned, n)
      ensures Restrict(v, d.numVariables) != d.literal <==> root != d.literal
    {
    }
    hide WellTyped, Restrict, SomeBound, HistoryOk;
    if root == AllUnbound(|types|) {
      NothingDropsNothing(v, |types|, n, excluded, dropped, pruned);
    } else {
      assert (forall d | d in DroppedNext(dropped, pruned, n) :: Restrict(v, d.numVariables) != d.literal)
        <==> (forall d | d in dropped :: Restrict(root, d.numVariables) != d.literal) && root !in pruned by {
        if root in pruned {
          assert Dropped(root, n) in DroppedNext(dropped, pruned, n);
        }
      }
    }
  }

  lemma SameExclusion(v: Variables, n: nat, excluded: set<Variables>, dropped: set<Dropped>)
    requires HistoryOk(excluded, dropped, n)
    ensures v in excluded <==> Restrict(v, n) in excluded
  {
    var root := Restrict(v, n);
    if v in excluded || root in excluded {
      assert v == root;
    }
  }

  lemma SameDrops(v: Variables, n: nat, excluded: set<Variables>, dropped: set<Dropped>)
    requires HistoryOk(excluded, dropped, n)
    ensures forall d | d in dropped :: Restrict(v, d.numVariables) == Restrict(Restrict(v, n), d.numVariables)
  {
  }

  /** A literal whose old variables are all gone restricts to no dropped literal. */
  lemma NothingDropsNothing(v: Variables, arity: nat, n: nat, excluded: set<Variables>, dropped: set<Dropped>,
                            pruned: set<Variables>)
    requires arity > 0 && Restrict(v, n) == AllUnbound(arity) && HistoryOk(excluded, dropped, n)
    requires forall w | w in pruned :: SomeBound(w)
    ensures v !in excluded && forall d | d in DroppedNext(dropped, pruned, n) ::
              Restrict(v, d.numVariables) != d.literal
  {
    SameExclusion(v, n, excluded, dropped);
    assert AllUnbound(arity)[0] == -1;
    SameDrops(v, n, excluded, dropped);
    forall d | d in DroppedNext(dropped, pruned, n)
      ensures Restrict(v, d.numVariables) != d.literal
    {
      assert SomeBound(d.literal);
      assert Restrict(v, d.numVariables) == Restrict(Restrict(v, n), d.numVariables);
    }
  }

  /** The literal added last is among the old ones only if it is fully bound. */
  lemma BodyIsOld(o: Variables, args: Variables, base: nat)
    requires (forall i | 0 <= i < |o| :: o[i] < base) && forall i | 0 <= i < |args| :: args[i] < base
    ensures o == Numbered(args, |args|, base) <==> FullyBound(args) && o == args
  {
    var body := Numbered(args, |args|, base);
    forall i | 0 <= i < |args|
      ensures args[i] >= 0 ==> body[i] == args[i]
      ensures args[i] < 0 ==> body[i] >= base
    {
      NumberedAt(args, |args|, base, i);
    }
    if o == body {
      assert forall i | 0 <= i < |args| :: o[i] == body[i];
    }
  }

  lemma LedIsComplete(literals: seq<Variables>, oldLiterals: seq<Variables>, pruned: set<Variables>,
                      samePredicate: bool, args: Variables,
                      types: seq<int>, varTypes: seq<int>, newTypes: seq<int>, excluded: set<Variables>,
                          dropped: set<Dropped>)
    requires types != [] && HistoryOk(excluded, dropped, |varTypes|) && forall w | w in pruned :: SomeBound(w)
    requires forall i | 0 <= i < |args| :: args[i] < |varTypes|
    requires Complete(oldLiterals, types, varTypes, excluded, dropped)
    requires LedFrom(literals, Roots(oldLiterals, pruned, |types|),
                     Removed(oldLiterals, pruned, |types|, samePredicate, Numbered(args, |args|, |varTypes|)), types,
                         varTypes, newTypes)
    ensures Complete(literals, types, varTypes + newTypes, ExcludedNext(excluded, samePredicate, args),
                     DroppedNext(dropped, pruned, |varTypes|))
  {
    hide WellTyped, Restrict, SomeBound, HistoryOk, Numbered, DroppedNext, Distinct;
    forall v
      ensures v in literals
              <==> Expected(v, types, varTypes + newTypes, ExcludedNext(excluded, samePredicate, args),
                            DroppedNext(dropped, pruned, |varTypes|))
    {
      LedIsExpected(oldLiterals, pruned, samePredicate, args, types, varTypes, newTypes, excluded, dropped, v);
    }
  }

  lemma LedIsExpected(oldLiterals: seq<Variables>, pruned: set<Variables>, samePredicate: bool, args: Variables,
                      types: seq<int>, varTypes: seq<int>, newTypes: seq<int>, excluded: set<Variables>,
                          dropped: set<Dropped>, v: Variables)
    requires types != [] && HistoryOk(excluded, dropped, |varTypes|) && forall w | w in pruned :: SomeBound(w)
    requires forall i | 0 <= i < |args| :: args[i] < |varTypes|
    requires Complete(oldLiterals, types, varTypes, excluded, dropped)
    ensures WellTyped(v, types, varTypes + newTypes) && Restrict(v, |varTypes|) in Roots(oldLiterals, pruned, |types|)
            && v !in Removed(oldLiterals, pruned, |types|, samePredicate, Numbered(args, |args|, |varTypes|))
            <==> Expected(v, types, varTypes + newTypes, ExcludedNext(excluded, samePredicate, args),
                          DroppedNext(dropped, pruned, |varTypes|))
  {
    if WellTyped(v, types, varTypes + newTypes) {
      var root, body := Restrict(v, |varTypes|), Numbered(args, |args|, |varTypes|);
      RootIsExpected(v, types, varTypes, newTypes, excluded, dropped, pruned);
      assert root in oldLiterals <==> Expected(root, types, varTypes, excluded, dropped);
      forall o | o in oldLiterals
        ensures o == body <==> FullyBound(args) && o == args
      {
        assert Expected(o, types, varTypes, excluded, dropped);
        assert WellTyped(o, types, varTypes);
        BodyIsOld(o, args, |varTypes|);
      }
      assert FullyBound(args) && v == args ==> root == v;
      assert v in oldLiterals ==> WellTyped(v, types, varTypes) && root == v;
      hide WellTyped, Restrict, SomeBound, HistoryOk, Numbered, Distinct, FullyBound;
    }
  }

  /** The list of the previous clause, extended by the new variables. */
  method EnumerateFromPrevious(types: seq<int>, oldLiterals: seq<Variables>, pruned: set<Variables>,
                               samePredicate: bool,
                               body: seq<nat>, bodyTypes: seq<int>, base: nat,
                               ghost args: Variables, ghost varTypes: seq<int>, ghost excluded: set<Variables>,
                                   ghost dropped: set<Dropped>)
    returns (literals: seq<Variables>)
    requires types != [] && |varTypes| == base && HistoryOk(excluded, dropped, base) && forall w | w in pruned ::
               SomeBound(w)
    requires body == Numbered(args, |args|, base) && WellTyped(args, bodyTypes, varTypes)
    requires Complete(oldLiterals, types, varTypes, excluded, dropped)
    ensures Complete(literals, types, varTypes + NewTypes(args, bodyTypes, |args|),
                     ExcludedNext(excluded, samePredicate, args),
                     DroppedNext(dropped, pruned, base))
  {
    ghost var newTypes := NewTypes(args, bodyTypes, |args|);
    assert forall v | 0 <= v < |args| :: args[v] < base;
    assert Distinct(oldLiterals) && forall o | o in oldLiterals :: WellTyped(o, types, varTypes) && SomeBound(o);
    hide *;
    var byType := NewVariablesByType(body, bodyTypes, base, args);
    var choices := GenerateVariableVectorForPredicate(byType, types, newTypes, base);
    literals := LiteralsWithNewVariablesOnly(choices, types, varTypes, newTypes);
    FirstRoot(literals, pruned, samePredicate, body, types, varTypes, newTypes);
    assert oldLiterals[..0] == [];
    for k := 0 to |oldLiterals|
      invariant LedFrom(literals, Roots(oldLiterals[..k], pruned, |types|),
                        Removed(oldLiterals[..k], pruned, |types|, samePredicate, body), types, varTypes, newTypes)
    {
      ghost var before := literals;
      var extensions: seq<Variables> := [];
      if oldLiterals[k] !in pruned {
        assert oldLiterals[k] in oldLiterals;
        extensions := ExtendOldLiteral(oldLiterals[k], choices, types, varTypes, newTypes);
        literals := literals + extensions;
        if !(samePredicate && body == oldLiterals[k]) {
          literals := literals + [oldLiterals[k]];
        } else {
          assert literals + [] == literals;
        }
      }
      NextRoot(before, oldLiterals, k, pruned, samePredicate, body, types, varTypes, newTypes, extensions);
    }
    assert oldLiterals[..|oldLiterals|] == oldLiterals;
    LedIsComplete(literals, oldLiterals, pruned, samePredicate, args, types, varTypes, newTypes, excluded, dropped);
  }

  /** A new clause over the same head starts from the first list without what was
      found to cover nothing. */
  method EnumerateAgain(oldLiterals: seq<Variables>, pruned: set<Variables>, ghost types: seq<int>,
                        ghost varTypes: seq<int>,
                        ghost excluded: set<Variables>, ghost dropped: set<Dropped>)
    returns (literals: seq<Variables>)
    requires Complete(oldLiterals, types, varTypes, excluded, dropped)
    ensures Complete(literals, types, varTypes, excluded, DroppedNext(dropped, pruned, |varTypes|))
  {
    hide Expected;
    literals := [];
    for i := 0 to |oldLiterals|
      invariant Distinct(literals)
      invariant forall v :: v in literals <==> v in oldLiterals[..i] && v !in pruned
    {
      assert oldLiterals[i] !in oldLiterals[..i];
      if oldLiterals[i] !in pruned {
        literals := literals + [oldLiterals[i]];
      }
    }
    assert oldLiterals[..|oldLiterals|] == oldLiterals;
    forall v
      ensures v in literals <==> Expected(v, types, varTypes, excluded, DroppedNext(dropped, pruned, |varTypes|))
    {
      PrunedIsDropped(v, types, varTypes, excluded, dropped, pruned);
    }
  }

  lemma PrunedIsDropped(v: Variables, types: seq<int>, varTypes: seq<int>, excluded: set<Variables>,
                        dropped: set<Dropped>,
                        pruned: set<Variables>)
    ensures Expected(v, types, varTypes, excluded, DroppedNext(dropped, pruned, |varTypes|))
            <==> Expected(v, types, varTypes, excluded, dropped) && v !in pruned
  {
    if WellTyped(v, types, varTypes) {
      assert Restrict(v, |varTypes|) == v;
      hide WellTyped, Restrict, SomeBound;
      if v in pruned {
        assert Dropped(v, |varTypes|) in DroppedNext(dropped, pruned, |varTypes|);
      }
    }
  }

  // ---------------------------------------------------------------------
  // Along a whole clause
  // ---------------------------------------------------------------------

  /** The literal that was added, and for every predicate the literals that had
      been found to cover nothing before. */
  datatype Step = Step(pred: nat, args: Variables, pruned: seq<set<Variables>>)

  ghost predicate StepOk(signature: seq<seq<int>>, varTypes: seq<int>, step: Step) {
    && step.pred < |signature| == |step.pruned| && WellTyped(step.args, signature[step.pred], varTypes)
    && forall p, w | 0 <= p < |signature| && w in step.pruned[p] :: SomeBound(w)
  }

  ghost predicate StepsOk(signature: seq<seq<int>>, headTypes: seq<int>, steps: seq<Step>)
    decreases |steps|, 0
  {
    steps == []
    || var init, last := steps[..|steps| - 1], steps[|steps| - 1];
       StepsOk(signature, headTypes, init) && StepOk(signature, VarTypesAfter(signature, headTypes, init), last)
  }

  /** The types of the clause's variables. */
  ghost function VarTypesAfter(signature: seq<seq<int>>, headTypes: seq<int>, steps: seq<Step>): (varTypes: seq<int>)
    requires StepsOk(signature, headTypes, steps)
    decreases |steps|, 1
  {
    if steps == [] then headTypes
    else
      var init, last := steps[..|steps| - 1], steps[|steps| - 1];
      VarTypesAfter(signature, headTypes, init) + NewTypes(last.args, signature[last.pred], |last.args|)
  }

  /** The head and the chosen literals without new variables. */
  ghost function ExcludedAfter(headPredicate: nat, headTypes: seq<int>, steps: seq<Step>,
                               p: nat): (excluded: set<Variables>) {
    if steps == [] then HeadExcluded(p == headPredicate, |headTypes|)
    else
      var init, last := steps[..|steps| - 1], steps[|steps| - 1];
      ExcludedNext(ExcludedAfter(headPredicate, headTypes, init, p), last.pred == p, last.args)
  }

  ghost function DroppedAfter(signature: seq<seq<int>>, headTypes: seq<int>, steps: seq<Step>,
                              p: nat): (dropped: set<Dropped>)
    requires StepsOk(signature, headTypes, steps) && p < |signature|
  {
    if steps == [] then {}
    else
      var init, last := steps[..|steps| - 1], steps[|steps| - 1];
      DroppedNext(DroppedAfter(signature, headTypes, init, p), last.pruned[p],
                  |VarTypesAfter(signature, headTypes, init)|)
  }

  lemma {:induction false} HistoryStaysOk(signature: seq<seq<int>>, headPredicate: nat, headTypes: seq<int>,
                                          steps: seq<Step>, p: nat)
    requires StepsOk(signature, headTypes, steps) && p < |signature|
    ensures HistoryOk(ExcludedAfter(headPredicate, headTypes, steps, p), DroppedAfter(signature, headTypes, steps, p),
                      |VarTypesAfter(signature, headTypes, steps)|)
  {
    if steps != [] {
      var init, last := steps[..|steps| - 1], steps[|steps| - 1];
      HistoryStaysOk(signature, headPredicate, headTypes, init, p);
      hide SomeBound;
      HistoryNext(ExcludedAfter(headPredicate, headTypes, init, p), DroppedAfter(signature, headTypes, init, p),
                  VarTypesAfter(signature, headTypes, init), signature[last.pred], last.pred == p, last.args,
                      last.pruned[p]);
    }
  }

  lemma HistoryNext(excluded: set<Variables>, dropped: set<Dropped>, varTypes: seq<int>, types: seq<int>,
                    samePredicate: bool,
                    args: Variables, pruned: set<Variables>)
    requires HistoryOk(excluded, dropped, |varTypes|) && WellTyped(args, types, varTypes) && forall w | w in pruned ::
               SomeBound(w)
    ensures HistoryOk(ExcludedNext(excluded, samePredicate, args), DroppedNext(dropped, pruned, |varTypes|),
                      |varTypes + NewTypes(args, types, |args|)|)
  {
    hide SomeBound;
  }

  /** What every predicate's list holds after these steps. */
  ghost predicate AllComplete(lists: seq<seq<Variables>>, signature: seq<seq<int>>, headPredicate: nat,
                              headTypes: seq<int>, steps: seq<Step>) {
    && StepsOk(signature, headTypes, steps) && |lists| == |signature|
    && forall p | 0 <= p < |signature| :: CompleteAt(lists[p], signature, headPredicate, headTypes, steps, p)
  }

  ghost predicate CompleteAt(literals: seq<Variables>, signature: seq<seq<int>>, headPredicate: nat,
                             headTypes: seq<int>, steps: seq<Step>,
                             p: nat)
    requires StepsOk(signature, headTypes, steps) && p < |signature|
  {
    Complete(literals, signature[p], VarTypesAfter(signature, headTypes, steps),
             ExcludedAfter(headPredicate, headTypes, steps, p), DroppedAfter(signature, headTypes, steps, p))
  }

  method EnumerateForHead(signature: seq<seq<int>>, headPredicate: nat, headTypes: seq<int>)
    returns (lists: seq<seq<Variables>>)
    requires forall p | 0 <= p < |signature| :: signature[p] != []
    ensures AllComplete(lists, signature, headPredicate, headTypes, [])
  {
    hide Complete;
    lists := [];
    for p := 0 to |signature|
      invariant |lists| == p
      invariant forall q | 0 <= q < p ::
                  Complete(lists[q], signature[q], headTypes, HeadExcluded(q == headPredicate, |headTypes|), {})
    {
      var literals := EnumerateFromScratch(signature[p], headTypes, p == headPredicate);
      lists := lists + [literals];
    }
  }

  /** All predicates' lists after one more literal was added to the clause. */
  method EnumerateStep(signature: seq<seq<int>>, step: Step, base: nat, lists: seq<seq<Variables>>,
                       ghost headPredicate: nat,
                       ghost headTypes: seq<int>, ghost before: seq<Step>)
    returns (r: seq<seq<Variables>>)
    requires forall p | 0 <= p < |signature| :: signature[p] != []
    requires AllComplete(lists, signature, headPredicate, headTypes, before)
             && StepsOk(signature, headTypes, before + [step])
    requires base == |VarTypesAfter(signature, headTypes, before)|
    ensures AllComplete(r, signature, headPredicate, headTypes, before + [step])
  {
    ghost var after := before + [step];
    hide *;
    var body := Numbered(step.args, |step.args|, base);
    StepMeans(signature, headTypes, before, step);
    r := [];
    for p := 0 to |signature|
      invariant |r| == p
      invariant forall q | 0 <= q < p :: CompleteAt(r[q], signature, headPredicate, headTypes, after, q)
    {
      ListAt(lists, signature, headPredicate, headTypes, before, p);
      var literals := EnumeratePredicate(signature, step, base, body, lists[p], p, headPredicate, headTypes, before);
      r := r + [literals];
    }
    ListsAre(r, signature, headPredicate, headTypes, after);
  }

  lemma ListAt(lists: seq<seq<Variables>>, signature: seq<seq<int>>, headPredicate: nat, headTypes: seq<int>,
               steps: seq<Step>, p: nat)
    requires AllComplete(lists, signature, headPredicate, headTypes, steps) && p < |signature|
    ensures StepsOk(signature, headTypes, steps) && |lists| == |signature|
    ensures CompleteAt(lists[p], signature, headPredicate, headTypes, steps, p)
  {
    hide CompleteAt, StepsOk;
  }

  lemma ListsAre(lists: seq<seq<Variables>>, signature: seq<seq<int>>, headPredicate: nat, headTypes: seq<int>,
                 steps: seq<Step>)
    requires StepsOk(signature, headTypes, steps) && |lists| == |signature|
    requires forall p | 0 <= p < |signature| :: CompleteAt(lists[p], signature, headPredicate, headTypes, steps, p)
    ensures AllComplete(lists, signature, headPredicate, headTypes, steps)
  {
    hide CompleteAt, StepsOk;
  }

  lemma StepMeans(signature: seq<seq<int>>, headTypes: seq<int>, before: seq<Step>, step: Step)
    requires StepsOk(signature, headTypes, before + [step])
    ensures StepsOk(signature, headTypes, before)
            && StepOk(signature, VarTypesAfter(signature, headTypes, before), step)
    ensures step.pred < |signature| == |step.pruned| && |step.args| == |signature[step.pred]|
  {
    var after := before + [step];
    assert after[..|after| - 1] == before && after[|after| - 1] == step;
    hide SomeBound;
  }

  /** One predicate's list after one more literal. */
  method EnumeratePredicate(signature: seq<seq<int>>, step: Step, base: nat, body: seq<nat>,
                            oldLiterals: seq<Variables>, p: nat,
                            ghost headPredicate: nat, ghost headTypes: seq<int>, ghost before: seq<Step>)
    returns (literals: seq<Variables>)
    requires p < |signature| && signature[p] != [] && StepsOk(signature, headTypes, before + [step])
    requires StepsOk(signature, headTypes, before)
             && StepOk(signature, VarTypesAfter(signature, headTypes, before), step)
    requires base == |VarTypesAfter(signature, headTypes, before)| && body == Numbered(step.args, |step.args|, base)
    requires CompleteAt(oldLiterals, signature, headPredicate, headTypes, before, p)
    ensures CompleteAt(literals, signature, headPredicate, headTypes, before + [step], p)
  {
    ghost var varTypes := VarTypesAfter(signature, headTypes, before);
    ghost var excluded, dropped := ExcludedAfter(headPredicate, headTypes, before, p),
        DroppedAfter(signature, headTypes, before, p);
    assert WellTyped(step.args, signature[step.pred], varTypes) && forall w | w in step.pruned[p] :: SomeBound(w);
    HistoryStaysOk(signature, headPredicate, headTypes, before, p);
    AfterStep(signature, headPredicate, headTypes, before, step, p);
    hide Complete, HistoryOk, SomeBound, WellTyped, VarTypesAfter, ExcludedAfter, DroppedAfter, StepsOk, ExcludedNext,
        DroppedNext, NewTypes,
      Numbered;
    literals := EnumerateFromPrevious(signature[p], oldLiterals, step.pruned[p], step.pred == p, body,
                                      signature[step.pred], base, step.args,
                                      varTypes, excluded, dropped);
  }

  lemma AfterStep(signature: seq<seq<int>>, headPredicate: nat, headTypes: seq<int>, before: seq<Step>, step: Step,
                  p: nat)
    requires StepsOk(signature, headTypes, before) && StepsOk(signature, headTypes, before + [step]) && p < |signature|
    requires StepOk(signature, VarTypesAfter(signature, headTypes, before), step)
    ensures VarTypesAfter(signature, headTypes, before + [step])
         == VarTypesAfter(signature, headTypes, before) + NewTypes(step.args, signature[step.pred], |step.args|)
    ensures ExcludedAfter(headPredicate, headTypes, before + [step], p)
         == ExcludedNext(ExcludedAfter(headPredicate, headTypes, before, p), step.pred == p, step.args)
    ensures DroppedAfter(signature, headTypes, before + [step], p)
         == DroppedNext(DroppedAfter(signature, headTypes, before, p), step.pruned[p],
                        |VarTypesAfter(signature, headTypes, before)|)
  {
    var after := before + [step];
    assert after[..|after| - 1] == before && after[|after| - 1] == step;
    hide SomeBound, WellTyped, NewTypes, ExcludedNext, DroppedNext;
  }

  // ---------------------------------------------------------------------
  // The same, read off the clause
  // ---------------------------------------------------------------------

  /** The clause that the steps make of the head. */
  ghost function ClauseAfter(numHead: nat, steps: seq<Step>): (c: Clause) {
    if steps == [] then Clause(numHead, [], numHead)
    else
      var last := steps[|steps| - 1];
      Added(ClauseAfter(numHead, steps[..|steps| - 1]), last.pred, last.args)
  }

  /** Argument a of body literal k is variable x, at a position of type t. */
  ghost predicate OccursAt(c: Clause, signature: seq<seq<int>>, k: nat, a: nat, x: int, t: int) {
    && k < |c.body| && c.body[k].pred < |signature|
    && a < |c.body[k].variables| && a < |signature[c.body[k].pred]|
    && c.body[k].variables[a] == x && signature[c.body[k].pred][a] == t
  }

  /** The variable occurs in the clause at a position of this type. */
  ghost predicate Typed(c: Clause, signature: seq<seq<int>>, headTypes: seq<int>, x: int, t: int) {
    || (0 <= x < |headTypes| && headTypes[x] == t)
    || OccursInBody(c, signature, x, t)
  }

  ghost predicate OccursInBody(c: Clause, signature: seq<seq<int>>, x: int, t: int) {
    exists k: nat, a: nat :: OccursAt(c, signature, k, a, x, t)
  }

  /** Every bound argument is a variable of the clause that occurs at a position of
      the argument's type. */
  ghost predicate FitsClause(v: Variables, types: seq<int>, c: Clause, signature: seq<seq<int>>, headTypes: seq<int>) {
    |v| == |types| && forall i | 0 <= i < |v| :: v[i] == -1 || Typed(c, signature, headTypes, v[i], types[i])
  }

  /** Each added literal fits the clause it is added to. */
  ghost predicate StepsFit(signature: seq<seq<int>>, headTypes: seq<int>, steps: seq<Step>) {
    forall k | 0 <= k < |steps| :: StepFits(signature, headTypes, ClauseAfter(|headTypes|, steps[..k]), steps[k])
  }

  ghost predicate StepFits(signature: seq<seq<int>>, headTypes: seq<int>, c: Clause, step: Step) {
    && step.pred < |signature| == |step.pruned|
    && FitsClause(step.args, signature[step.pred], c, signature, headTypes)
    && forall p, w | 0 <= p < |signature| && w in step.pruned[p] :: SomeBound(w)
  }

  /** What the list of predicate p is to hold. */
  ghost predicate Listed(v: Variables, signature: seq<seq<int>>, headPredicate: nat, headTypes: seq<int>,
                         steps: seq<Step>, p: nat)
    requires p < |signature|
  {
    && FitsClause(v, signature[p], ClauseAfter(|headTypes|, steps), signature, headTypes)
    && SomeBound(v)
    && !(p == headPredicate && v == HeadArgs(|headTypes|))
    && (forall k | 0 <= k < |steps| :: !AddsWithoutNew(steps[k], p, v))
    && forall k: nat :: !PrunedAt(headTypes, steps, k, p, v)
  }

  /** The added literal is this one, which has no unbound argument. */
  ghost predicate AddsWithoutNew(step: Step, p: nat, v: Variables) {
    step.pred == p && step.args == v && forall i | 0 <= i < |v| :: v[i] >= 0
  }

  /** What the clause's variables before step k leave of the literal was pruned. */
  ghost predicate PrunedAt(headTypes: seq<int>, steps: seq<Step>, k: nat, p: nat, v: Variables) {
    && k < |steps| && p < |steps[k].pruned|
    && Restrict(v, ClauseAfter(|headTypes|, steps[..k]).numVariables) in steps[k].pruned[p]
  }

  /** The types are those of the positions where the variables occur. */
  ghost predicate TypesFrom(varTypes: seq<int>, c: Clause, signature: seq<seq<int>>, headTypes: seq<int>) {
    && |varTypes| == c.numVariables && headTypes <= varTypes
    && OccurrencesTyped(varTypes, c, signature) && OthersOccur(varTypes, c, signature, |headTypes|)
  }

  ghost predicate OccurrencesTyped(varTypes: seq<int>, c: Clause, signature: seq<seq<int>>) {
    forall k: nat, a: nat, x: int, t: int | OccursAt(c, signature, k, a, x, t) ::
      0 <= x < |varTypes| && varTypes[x] == t
  }

  ghost predicate OthersOccur(varTypes: seq<int>, c: Clause, signature: seq<seq<int>>, n: nat) {
    forall x | n <= x < |varTypes| :: OccursInBody(c, signature, x, varTypes[x])
  }

  lemma TypesOfLiteral(args: Variables, types: seq<int>, varTypes: seq<int>, a: nat)
    requires WellTyped(args, types, varTypes) && a < |args|
    ensures var all, id := varTypes + NewTypes(args, types, |args|), Numbered(args, |args|, |varTypes|)[a];
            id < |all| && all[id] == types[a]
  {
    NumberedAt(args, |args|, |varTypes|, a);
    if args[a] < 0 {
      UnboundAt(args, |args|, a);
      NewTypeAt(args, types, |args|, a);
    }
  }

  lemma {:induction false} NewTypeAt(args: Variables, types: seq<int>, n: nat, a: nat)
    requires a < n <= |args| == |types| && args[a] < 0
    ensures |Unbound(args, a)| < |Unbound(args, n)| && NewTypes(args, types, n)[|Unbound(args, a)|] == types[a]
  {
    if a < n - 1 {
      NewTypeAt(args, types, n - 1, a);
    }
  }

  /** Every new variable is an argument of the literal. */
  lemma NewVariableOccurs(args: Variables, types: seq<int>, varTypes: seq<int>, x: nat) returns (a: nat)
    requires WellTyped(args, types, varTypes) && |varTypes| <= x < |varTypes| + |Unbound(args, |args|)|
    ensures a < |args| && Numbered(args, |args|, |varTypes|)[a] == x
  {
    NumberingMeans(args, |varTypes|);
    a := Unbound(args, |args|)[x - |varTypes|];
  }

  lemma TypesAfterLiteral(varTypes: seq<int>, c: Clause, signature: seq<seq<int>>, headTypes: seq<int>, pred: nat,
                          args: Variables)
    requires TypesFrom(varTypes, c, signature, headTypes)
    requires pred < |signature| && WellTyped(args, signature[pred], varTypes)
    ensures TypesFrom(varTypes + NewTypes(args, signature[pred], |args|), Added(c, pred, args), signature, headTypes)
  {
    hide OccursAt, OccurrencesTyped, OthersOccur, NewTypes, Unbound, Numbered, WellTyped;
    TypedAfterLiteral(varTypes, c, signature, headTypes, pred, args);
    OccurAfterLiteral(varTypes, c, signature, headTypes, pred, args);
  }

  lemma TypedAfterLiteral(varTypes: seq<int>, c: Clause, signature: seq<seq<int>>, headTypes: seq<int>, pred: nat,
                          args: Variables)
    requires TypesFrom(varTypes, c, signature, headTypes)
    requires pred < |signature| && WellTyped(args, signature[pred], varTypes)
    ensures OccurrencesTyped(varTypes + NewTypes(args, signature[pred], |args|), Added(c, pred, args), signature)
  {
    var all, c' := varTypes + NewTypes(args, signature[pred], |args|), Added(c, pred, args);
    hide TypesFrom, OccursAt, NewTypes, Unbound, Numbered, WellTyped, Added;
    forall k: nat, a: nat, x: int, t: int | OccursAt(c', signature, k, a, x, t)
      ensures 0 <= x < |all| && all[x] == t
    {
      OccurrenceHasType(varTypes, c, signature, headTypes, pred, args, k, a, x, t);
    }
  }

  lemma OccurAfterLiteral(varTypes: seq<int>, c: Clause, signature: seq<seq<int>>, headTypes: seq<int>, pred: nat,
                          args: Variables)
    requires TypesFrom(varTypes, c, signature, headTypes)
    requires pred < |signature| && WellTyped(args, signature[pred], varTypes)
    ensures OthersOccur(varTypes + NewTypes(args, signature[pred], |args|), Added(c, pred, args), signature,
                        |headTypes|)
  {
    var all, c' := varTypes + NewTypes(args, signature[pred], |args|), Added(c, pred, args);
    hide TypesFrom, OccursAt, NewTypes, Unbound, Numbered, WellTyped, Added;
    forall x | |headTypes| <= x < |all|
      ensures OccursInBody(c', signature, x, all[x])
    {
      var k, a := VariableOccurs(varTypes, c, signature, headTypes, pred, args, x);
    }
  }

  lemma OccurrenceHasType(varTypes: seq<int>, c: Clause, signature: seq<seq<int>>, headTypes: seq<int>, pred: nat,
                          args: Variables, k: nat, a: nat, x: int, t: int)
    requires TypesFrom(varTypes, c, signature, headTypes)
    requires pred < |signature| && WellTyped(args, signature[pred], varTypes)
    requires OccursAt(Added(c, pred, args), signature, k, a, x, t)
    ensures var all := varTypes + NewTypes(args, signature[pred], |args|);
            0 <= x < |all| && all[x] == t
  {
    hide NewTypes, Unbound, Numbered, WellTyped;
    if k < |c.body| {
      assert OccursAt(c, signature, k, a, x, t);
    } else {
      TypesOfLiteral(args, signature[pred], varTypes, a);
    }
  }

  lemma VariableOccurs(varTypes: seq<int>, c: Clause, signature: seq<seq<int>>, headTypes: seq<int>, pred: nat,
                       args: Variables, x: int)
    returns (k: nat, a: nat)
    requires TypesFrom(varTypes, c, signature, headTypes)
    requires pred < |signature| && WellTyped(args, signature[pred], varTypes)
    requires |headTypes| <= x < |varTypes| + |Unbound(args, |args|)|
    ensures OccursAt(Added(c, pred, args), signature, k, a, x, (varTypes + NewTypes(args, signature[pred], |args|))[x])
  {
    hide NewTypes, Unbound, Numbered;
    if x < |varTypes| {
      k, a :| OccursAt(c, signature, k, a, x, varTypes[x]);
    } else {
      a := NewVariableOccurs(args, signature[pred], varTypes, x);
      TypesOfLiteral(args, signature[pred], varTypes, a);
      k := |c.body|;
    }
  }

  lemma TypedMeans(varTypes: seq<int>, c: Clause, signature: seq<seq<int>>, headTypes: seq<int>, x: int, t: int)
    requires TypesFrom(varTypes, c, signature, headTypes)
    ensures Typed(c, signature, headTypes, x, t) <==> 0 <= x < |varTypes| && varTypes[x] == t
  {
  }

  lemma FitsMeans(v: Variables, types: seq<int>, varTypes: seq<int>, c: Clause, signature: seq<seq<int>>,
                  headTypes: seq<int>)
    requires TypesFrom(varTypes, c, signature, headTypes)
    ensures FitsClause(v, types, c, signature, headTypes) <==> WellTyped(v, types, varTypes)
  {
    if |v| == |types| {
      forall i | 0 <= i < |v|
        ensures Typed(c, signature, headTypes, v[i], types[i])
                <==> 0 <= v[i] < |varTypes| && varTypes[v[i]] == types[i]
      {
        TypedMeans(varTypes, c, signature, headTypes, v[i], types[i]);
      }
    }
    hide Typed, TypesFrom;
  }

  /** The types kept along the steps are those the clause shows. */
  lemma {:induction false} TypesShow(signature: seq<seq<int>>, headTypes: seq<int>, steps: seq<Step>)
    requires StepsFit(signature, headTypes, steps)
    ensures StepsOk(signature, headTypes, steps)
    ensures TypesFrom(VarTypesAfter(signature, headTypes, steps), ClauseAfter(|headTypes|, steps), signature, headTypes)
  {
    if steps != [] {
      var init, last := steps[..|steps| - 1], steps[|steps| - 1];
      assert forall k | 0 <= k < |init| :: init[..k] == steps[..k];
      assert StepFits(signature, headTypes, ClauseAfter(|headTypes|, init), last);
      assert StepsFit(signature, headTypes, init) by {
        forall k | 0 <= k < |init|
          ensures StepFits(signature, headTypes, ClauseAfter(|headTypes|, init[..k]), init[k])
        {
          assert StepFits(signature, headTypes, ClauseAfter(|headTypes|, steps[..k]), steps[k]);
        }
      }
      TypesShow(signature, headTypes, init);
      hide StepsFit, TypesFrom, FitsClause;
      var varTypes, c := VarTypesAfter(signature, headTypes, init), ClauseAfter(|headTypes|, init);
      FitsMeans(last.args, signature[last.pred], varTypes, c, signature, headTypes);
      TypesAfterLiteral(varTypes, c, signature, headTypes, last.pred, last.args);
    }
  }

  lemma {:induction false} ExcludedMeans(headPredicate: nat, headTypes: seq<int>, steps: seq<Step>, p: nat,
                                         v: Variables)
    ensures v in ExcludedAfter(headPredicate, headTypes, steps, p) <==>
              || (p == headPredicate && v == HeadArgs(|headTypes|))
              || exists k :: 0 <= k < |steps| && AddsWithoutNew(steps[k], p, v)
  {
    if steps != [] {
      var init, last := steps[..|steps| - 1], steps[|steps| - 1];
      ExcludedMeans(headPredicate, headTypes, init, p, v);
      assert v in ExcludedAfter(headPredicate, headTypes, steps, p)
        <==> v in ExcludedAfter(headPredicate, headTypes, init, p) || AddsWithoutNew(last, p, v);
      if k :| 0 <= k < |init| && AddsWithoutNew(init[k], p, v) {
        assert AddsWithoutNew(steps[k], p, v);
      }
      if k :| 0 <= k < |steps| && AddsWithoutNew(steps[k], p, v) {
        assert k == |init| || AddsWithoutNew(init[k], p, v);
      }
    }
  }

  lemma {:induction false} DroppedMeans(signature: seq<seq<int>>, headTypes: seq<int>, steps: seq<Step>, p: nat,
                                        v: Variables)
    requires StepsFit(signature, headTypes, steps) && StepsOk(signature, headTypes, steps) && p < |signature|
    ensures (exists d :: d in DroppedAfter(signature, headTypes, steps, p) && Restrict(v, d.numVariables) == d.literal)
            <==> exists k: nat :: PrunedAt(headTypes, steps, k, p, v)
  {
    if steps != [] {
      var init, last := steps[..|steps| - 1], steps[|steps| - 1];
      FitInit(signature, headTypes, steps);
      TypesShow(signature, headTypes, init);
      DroppedMeans(signature, headTypes, init, p, v);
      var n := ClauseAfter(|headTypes|, init).numVariables;
      assert n == |VarTypesAfter(signature, headTypes, init)|;
      assert StepFits(signature, headTypes, ClauseAfter(|headTypes|, steps[..|init|]), last);
      assert p < |last.pruned|;
      hide StepsFit, StepsOk, TypesFrom, FitsClause, StepFits;
      DroppedNextMeans(DroppedAfter(signature, headTypes, init, p), last.pruned[p], n, v);
      PrunedBefore(headTypes, steps, p, v);
    }
  }

  lemma FitInit(signature: seq<seq<int>>, headTypes: seq<int>, steps: seq<Step>)
    requires StepsFit(signature, headTypes, steps) && steps != []
    ensures StepsFit(signature, headTypes, steps[..|steps| - 1])
  {
    var init := steps[..|steps| - 1];
    forall k | 0 <= k < |init|
      ensures StepFits(signature, headTypes, ClauseAfter(|headTypes|, init[..k]), init[k])
    {
      assert init[..k] == steps[..k];
      assert StepFits(signature, headTypes, ClauseAfter(|headTypes|, steps[..k]), steps[k]);
    }
  }

  lemma PrunedBefore(headTypes: seq<int>, steps: seq<Step>, p: nat, v: Variables)
    requires steps != [] && p < |steps[|steps| - 1].pruned|
    ensures var init, last := steps[..|steps| - 1], steps[|steps| - 1];
            (exists k: nat :: PrunedAt(headTypes, steps, k, p, v))
            <==> (exists k: nat :: PrunedAt(headTypes, init, k, p, v))
                 || Restrict(v, ClauseAfter(|headTypes|, init).numVariables) in last.pruned[p]
  {
    var init, last := steps[..|steps| - 1], steps[|steps| - 1];
    forall k: nat
      ensures k < |init| ==> (PrunedAt(headTypes, init, k, p, v) <==> PrunedAt(headTypes, steps, k, p, v))
    {
      if k < |init| {
        assert init[..k] == steps[..k];
      }
    }
    LastPruned(headTypes, steps, p, v);
    assert forall k: nat | k >= |init| :: !PrunedAt(headTypes, init, k, p, v);
    assert forall k: nat | k > |init| :: !PrunedAt(headTypes, steps, k, p, v);
    hide PrunedAt, ClauseAfter, Restrict;
    if k: nat :| PrunedAt(headTypes, steps, k, p, v) {
      assert k == |init| || PrunedAt(headTypes, init, k, p, v);
    }
    if k: nat :| PrunedAt(headTypes, init, k, p, v) {
      assert PrunedAt(headTypes, steps, k, p, v);
    }
  }

  lemma LastPruned(headTypes: seq<int>, steps: seq<Step>, p: nat, v: Variables)
    requires steps != [] && p < |steps[|steps| - 1].pruned|
    ensures var init, last := steps[..|steps| - 1], steps[|steps| - 1];
            PrunedAt(headTypes, steps, |init|, p, v)
            <==> Restrict(v, ClauseAfter(|headTypes|, init).numVariables) in last.pruned[p]
  {
  }

  lemma DroppedNextMeans(dropped: set<Dropped>, pruned: set<Variables>, n: nat, v: Variables)
    ensures (exists d :: d in DroppedNext(dropped, pruned, n) && Restrict(v, d.numVariables) == d.literal)
            <==> (exists d :: d in dropped && Restrict(v, d.numVariables) == d.literal) || Restrict(v, n) in pruned
  {
    hide Restrict;
    if d :| d in dropped && Restrict(v, d.numVariables) == d.literal {
      assert d in DroppedNext(dropped, pruned, n);
    }
    if Restrict(v, n) in pruned {
      assert Dropped(Restrict(v, n), n) in DroppedNext(dropped, pruned, n);
    }
  }

  lemma ExpectedIsListed(signature: seq<seq<int>>, headPredicate: nat, headTypes: seq<int>, steps: seq<Step>, p: nat,
                         v: Variables)
    requires StepsFit(signature, headTypes, steps) && StepsOk(signature, headTypes, steps) && p < |signature|
    ensures Expected(v, signature[p], VarTypesAfter(signature, headTypes, steps),
                     ExcludedAfter(headPredicate, headTypes, steps, p), DroppedAfter(signature, headTypes, steps, p))
            <==> Listed(v, signature, headPredicate, headTypes, steps, p)
  {
    TypesShow(signature, headTypes, steps);
    FitsMeans(v, signature[p], VarTypesAfter(signature, headTypes, steps), ClauseAfter(|headTypes|, steps), signature,
              headTypes);
    ExcludedMeans(headPredicate, headTypes, steps, p, v);
    DroppedMeans(signature, headTypes, steps, p, v);
    hide StepsFit, StepsOk, TypesFrom, FitsClause, WellTyped, SomeBound, VarTypesAfter, ExcludedAfter, DroppedAfter,
      ClauseAfter, Restrict, AddsWithoutNew, PrunedAt;
  }

  lemma CompleteIsListed(lists: seq<seq<Variables>>, signature: seq<seq<int>>, headPredicate: nat, headTypes: seq<int>,
                         steps: seq<Step>)
    requires AllComplete(lists, signature, headPredicate, headTypes, steps) && StepsFit(signature, headTypes, steps)
    ensures |lists| == |signature| && forall p | 0 <= p < |lists| :: Distinct(lists[p])
    ensures forall p, v | 0 <= p < |lists| ::
              v in lists[p] <==> Listed(v, signature, headPredicate, headTypes, steps, p)
  {
    hide StepsFit, StepsOk, Listed, Expected, VarTypesAfter, ExcludedAfter, DroppedAfter;
    forall p, v | 0 <= p < |lists|
      ensures Distinct(lists[p]) && (v in lists[p] <==> Listed(v, signature, headPredicate, headTypes, steps, p))
    {
      assert CompleteAt(lists[p], signature, headPredicate, headTypes, steps, p);
      ExpectedIsListed(signature, headPredicate, headTypes, steps, p, v);
    }
  }

  /** Along every clause, whatever literals are added and whatever is dropped on the
      way, each predicate's list holds exactly once every literal that fits the
      clause and has a variable of it, except the head, the added literals without
      new variables, and what restricts to a dropped literal. */
  method EnumerateAlong(signature: seq<seq<int>>, headPredicate: nat, headTypes: seq<int>, steps: seq<Step>)
    returns (lists: seq<seq<Variables>>)
    requires (forall p | 0 <= p < |signature| :: signature[p] != []) && StepsFit(signature, headTypes, steps)
    ensures |lists| == |signature| && forall p | 0 <= p < |lists| :: Distinct(lists[p])
    ensures forall p, v | 0 <= p < |lists| ::
              v in lists[p] <==> Listed(v, signature, headPredicate, headTypes, steps, p)
  {
    hide *;
    TypesShow(signature, headTypes, steps);
    lists := EnumerateSteps(signature, headPredicate, headTypes, steps);
    CompleteIsListed(lists, signature, headPredicate, headTypes, steps);
  }

  method EnumerateSteps(signature: seq<seq<int>>, headPredicate: nat, headTypes: seq<int>, steps: seq<Step>)
    returns (lists: seq<seq<Variables>>)
    requires (forall p | 0 <= p < |signature| :: signature[p] != []) && StepsOk(signature, headTypes, steps)
    ensures AllComplete(lists, signature, headPredicate, headTypes, steps)
  {
    hide *;
    lists := EnumerateForHead(signature, headPredicate, headTypes);
    var base := |headTypes|;
    PrefixesOk(signature, headTypes, steps);
    assert steps[..0] == [];
    for i := 0 to |steps|
      invariant AllComplete(lists, signature, headPredicate, headTypes, steps[..i])
      invariant base == CountVariables(signature, headTypes, steps[..i])
    {
      assert steps[..i + 1] == steps[..i] + [steps[i]];
      CountIs(signature, headTypes, steps[..i], steps[i]);
      lists := EnumerateStep(signature, steps[i], base, lists, headPredicate, headTypes, steps[..i]);
      base := base + |Unbound(steps[i].args, |steps[i].args|)|;
    }
    assert steps[..|steps|] == steps;
  }

  ghost function CountVariables(signature: seq<seq<int>>, headTypes: seq<int>, steps: seq<Step>): (n: nat) {
    if StepsOk(signature, headTypes, steps) then |VarTypesAfter(signature, headTypes, steps)| else 0
  }

  lemma CountIs(signature: seq<seq<int>>, headTypes: seq<int>, before: seq<Step>, step: Step)
    requires StepsOk(signature, headTypes, before + [step])
    ensures StepsOk(signature, headTypes, before)
    ensures CountVariables(signature, headTypes, before) == |VarTypesAfter(signature, headTypes, before)|
    ensures CountVariables(signature, headTypes, before + [step])
         == CountVariables(signature, headTypes, before) + |Unbound(step.args, |step.args|)|
  {
    assert (before + [step])[..|before|] == before;
  }

  lemma {:induction false} PrefixesOk(signature: seq<seq<int>>, headTypes: seq<int>, steps: seq<Step>)
    requires StepsOk(signature, headTypes, steps)
    ensures forall i | 0 <= i <= |steps| :: StepsOk(signature, headTypes, steps[..i])
    ensures CountVariables(signature, headTypes, []) == |headTypes|
  {
    if steps != [] {
      var init := steps[..|steps| - 1];
      PrefixesOk(signature, headTypes, init);
      forall i | 0 <= i <= |steps|
        ensures StepsOk(signature, headTypes, steps[..i])
      {
        if i < |steps| {
          assert steps[..i] == init[..i];
        } else {
          assert steps[..i] == steps;
        }
      }
    }
  }

  /** What is missing for a dropped literal covers nothing either. */
  lemma DroppedIsUseless(bg: Background, examples: seq<seq<Value>>, c: Clause, columns: seq<seq<Value>>,
                         choices: seq<Choice>,
                         examples': seq<seq<Value>>, c': Clause, columns': seq<seq<Value>>, choices': seq<Choice>,
                         facts: seq<seq<Value>>, d: Dropped, v: Variables)
    requires c.Valid() && c'.Valid() && IsExtendedBy(c, c') && |examples| == |examples'| == c.numHead
    requires BindingTableOf(bg, examples, c, columns, choices) && BindingTableOf(bg, examples', c', columns', choices')
    requires Within(examples', examples) && d.numVariables == c.numVariables && Restrict(v, d.numVariables) == d.literal
    requires Witnesses(facts, columns, d.literal) == {}
    ensures Witnesses(facts, columns', v) == {}
  {
    assert FurtherBound(d.literal, v);
    hide BindingTableOf, Witnesses, Clause.Valid, IsExtendedBy, Within;
    ZeroCoverageIsFinal(bg, examples, c, columns, choices, examples', c', columns', choices', facts, d.literal, v);
  }
}
