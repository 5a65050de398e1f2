/** CandidateLiteralEvaluator::Evaluate: the binding and coverage counts of all
    candidate literals against the naive definition
    (learner/CandidateLiteralEvaluator.cpp). */
module Evaluator {
  import opened Bits
  import opened Collections
  import opened RadixPartition
  import opened PartitionAssigner
  import opened Tallies
  import opened Bindings
  import opened JoinMeaning
  import opened ChunkStream
  import opened EvaluationPlan
  import opened CountAggregator
  import opened PlanAtoms
  import opened PlanGenerator
  import opened PlanLoop
  import opened PlanPruning
  import opened Pipeline

  /** A candidate literal: the variable of every column, and the column joined on. */
  datatype Candidate = Candidate(variables: Variables, joinKey: nat)

  /** The candidates over one background predicate. */
  datatype LiteralGroup = LiteralGroup(table: TableView, candidates: seq<Candidate>)

  /** num_binding_* and num_covered_* of one label. */
  datatype Score = Score(numBinding: nat, numCovered: nat)

  /** The score counts the witnesses, and the binding rows that have one. */
  ghost predicate ScoreIs(s: Score, ws: set<Pair>) {
    s.numBinding == |ws| && s.numCovered == |set q | q in ws :: q.binding|
  }

  ghost function PositiveOnes(run: Run, ws: set<Pair>): (r: set<Pair>) {
    set q | q in ws && (run.Both? ==> q.binding < run.numPositive)
  }

  ghost function NegativeOnes(run: Run, ws: set<Pair>): (r: set<Pair>) {
    set q | q in ws && (run.Both? ==> q.binding >= run.numPositive)
  }

  // ---------------------------------------------------------------------
  // What the evaluator is given
  // ---------------------------------------------------------------------

  datatype Setup = Setup(groups: seq<LiteralGroup>, clauseKey: nat, numVariables: nat, hash: Hash, numRadixBits: nat,
                         chunkSize: nat) {

    ghost predicate Valid() {
      && groups != [] && numRadixBits > 0 && chunkSize > 0 && clauseKey < numVariables
      && forall t | 0 <= t < |groups| :: GroupOk(groups[t])
    }

    ghost predicate GroupOk(group: LiteralGroup) {
      && Rectangular(group.table.columns) && PartitionsOk(group.table, hash, numRadixBits)
      && group.candidates != []
      && (forall c | c in group.candidates :: CandidateOk(c, |group.table.columns|))
      && forall i, j | 0 <= i < j < |group.candidates| :: group.candidates[i].variables != group.candidates[j].variables
    }

    ghost predicate CandidateOk(c: Candidate, arity: nat) {
      && |c.variables| == arity && c.joinKey < arity && c.variables[c.joinKey] == clauseKey
      && forall v | 0 <= v < arity :: -1 <= c.variables[v] < numVariables
    }

    /** Some candidate's join key has a fact that meets a binding. */
    ghost predicate SomethingMeets(bindings: seq<seq<Value>>) {
      exists t, i ::
        0 <= t < |groups| && 0 <= i < |groups[t].candidates|
        && Meets(groups[t].table.columns, groups[t].candidates[i].joinKey, bindings)
    }

    ghost predicate Meets(facts: seq<seq<Value>>, joinKey: nat, bindings: seq<seq<Value>>) {
      && joinKey < |facts| && clauseKey < |bindings|
      && exists f, b ::
           0 <= f < |facts[joinKey]| && 0 <= b < |bindings[clauseKey]| && facts[joinKey][f] == bindings[clauseKey][b]
    }
  }

  // ---------------------------------------------------------------------
  // Join groups and plans of one predicate
  // ---------------------------------------------------------------------

  /** Join groups: their key columns, members, filter atoms and plans. */
  datatype JoinGroups = JoinGroups(keys: seq<nat>, members: seq<seq<nat>>, atoms: seq<seq<FilterAtom>>,
                                   plans: seq<PredicateEvaluationPlan>)

  ghost predicate Grouped(candidates: seq<Candidate>, n: nat, keys: seq<nat>, members: seq<seq<nat>>) {
    && n <= |candidates| && |keys| == |members|
    && (forall g, h | 0 <= g < h < |keys| :: keys[g] != keys[h])
    && (forall g | 0 <= g < |members| :: members[g] != [] && InGroup(candidates, n, keys[g], members[g]))
    && forall i | 0 <= i < n :: exists g :: 0 <= g < |keys| && keys[g] == candidates[i].joinKey
  }

  /** Exactly the candidates below n with this key, in order. */
  ghost predicate InGroup(candidates: seq<Candidate>, n: nat, key: nat, member: seq<nat>) {
    && (forall i | i in member :: i < n && i < |candidates| && candidates[i].joinKey == key)
    && (forall j, k | 0 <= j < k < |member| :: member[j] < member[k])
    && forall i | 0 <= i < n && i < |candidates| && candidates[i].joinKey == key :: i in member
  }

  method GroupByJoinKey(candidates: seq<Candidate>) returns (keys: seq<nat>, members: seq<seq<nat>>)
    ensures Grouped(candidates, |candidates|, keys, members)
  {
    keys, members := [], [];
    var groupOf: map<nat, nat> := map[];
    for i := 0 to |candidates|
      invariant Grouped(candidates, i, keys, members)
      invariant forall k | k in groupOf :: groupOf[k] < |keys| && keys[groupOf[k]] == k
      invariant forall g | 0 <= g < |keys| :: keys[g] in groupOf
    {
      var key := candidates[i].joinKey;
      if key !in groupOf {
        NewGroup(candidates, i, keys, members);
        groupOf := groupOf[key := |keys|];
        keys, members := keys + [key], members + [[i]];
      } else {
        var g := groupOf[key];
        OldGroup(candidates, i, keys, members, g);
        members := members[g := members[g] + [i]];
      }
    }
  }

  lemma OthersUnchanged(candidates: seq<Candidate>, i: nat, key: nat, member: seq<nat>)
    requires i < |candidates| && InGroup(candidates, i, key, member) && candidates[i].joinKey != key
    ensures InGroup(candidates, i + 1, key, member)
  {
  }

  lemma NewGroup(candidates: seq<Candidate>, i: nat, keys: seq<nat>, members: seq<seq<nat>>)
    requires i < |candidates| && Grouped(candidates, i, keys, members) && candidates[i].joinKey !in keys
    ensures Grouped(candidates, i + 1, keys + [candidates[i].joinKey], members + [[i]])
  {
    var key := candidates[i].joinKey;
    assert InGroup(candidates, i + 1, key, [i]) by {
      forall j | 0 <= j < i
        ensures candidates[j].joinKey != key
      {
        var g :| 0 <= g < |keys| && keys[g] == candidates[j].joinKey;
        assert keys[g] in keys;
      }
    }
    forall g | 0 <= g < |members|
      ensures InGroup(candidates, i + 1, keys[g], members[g])
    {
      assert keys[g] in keys;
      OthersUnchanged(candidates, i, keys[g], members[g]);
    }
    hide InGroup;
    var keys' := keys + [key];
    assert keys'[|keys|] == key;
    forall j | 0 <= j < i + 1
      ensures exists g :: 0 <= g < |keys'| && keys'[g] == candidates[j].joinKey
    {
      if j < i {
        var g :| 0 <= g < |keys| && keys[g] == candidates[j].joinKey;
        assert keys'[g] == candidates[j].joinKey;
      }
    }
  }

  lemma OldGroup(candidates: seq<Candidate>, i: nat, keys: seq<nat>, members: seq<seq<nat>>, g: nat)
    requires i < |candidates| && Grouped(candidates, i, keys, members) && g < |keys| && keys[g] == candidates[i].joinKey
    ensures Grouped(candidates, i + 1, keys, members[g := members[g] + [i]])
  {
    MemberAdded(candidates, i, keys[g], members[g]);
    forall h | 0 <= h < |members| && h != g
      ensures InGroup(candidates, i + 1, keys[h], members[h])
    {
      OthersUnchanged(candidates, i, keys[h], members[h]);
    }
    hide InGroup;
  }

  /** The variables of the members of a join group. */
  function VariablesOf(candidates: seq<Candidate>, member: seq<nat>): (vs: seq<Variables>)
    requires forall i | i in member :: i < |candidates|
    ensures |vs| == |member|
  {
    seq(|member|, j requires 0 <= j < |member| => assert member[j] in member; candidates[member[j]].variables)
  }

  lemma MembersAreAGroup(setup: Setup, group: LiteralGroup, key: nat, member: seq<nat>)
    requires setup.GroupOk(group) && InGroup(group.candidates, |group.candidates|, key, member) && member != []
    ensures JoinGroup(VariablesOf(group.candidates, member), key)
    ensures key < |group.table.columns|
  {
    var vs := VariablesOf(group.candidates, member);
    forall l | 0 <= l < |vs|
      ensures setup.CandidateOk(group.candidates[member[l]], |group.table.columns|)
              && group.candidates[member[l]].joinKey == key
    {
      assert member[l] in member;
      assert group.candidates[member[l]] in group.candidates;
    }
    forall l, m | 0 <= l < m < |vs|
      ensures vs[l] != vs[m]
    {
      assert member[l] < member[m];
    }
  }

  ghost predicate PlanReady(setup: Setup, group: LiteralGroup, key: nat, member: seq<nat>, atoms: seq<FilterAtom>,
                            plan: PredicateEvaluationPlan) {
    && InGroup(group.candidates, |group.candidates|, key, member)
    && PlanFor(plan, atoms, VariablesOf(group.candidates, member), key)
    && forall a | a in atoms :: a.probeColumn < |group.table.columns| && a.buildColumn < setup.numVariables
  }

  ghost predicate Ready(setup: Setup, group: LiteralGroup, groups: JoinGroups) {
    && Grouped(group.candidates, |group.candidates|, groups.keys, groups.members)
    && groups.keys != [] && |groups.atoms| == |groups.plans| == |groups.members| == |groups.keys|
    && forall g | 0 <= g < |groups.keys| ::
         groups.keys[g] < |group.table.columns|
         && PlanReady(setup, group, groups.keys[g], groups.members[g], groups.atoms[g], groups.plans[g])
  }

  /** The candidates below n with this key. */
  ghost function MembersWith(candidates: seq<Candidate>, n: nat, key: nat): (member: seq<nat>)
    requires n <= |candidates|
    ensures InGroup(candidates, n, key, member)
  {
    if n == 0 then []
    else if candidates[n - 1].joinKey == key then
      var before := MembersWith(candidates, n - 1, key);
      MemberAdded(candidates, n - 1, key, before);
      before + [n - 1]
    else MembersWith(candidates, n - 1, key)
  }

  lemma MemberAdded(candidates: seq<Candidate>, i: nat, key: nat, member: seq<nat>)
    requires i < |candidates| && InGroup(candidates, i, key, member) && candidates[i].joinKey == key
    ensures InGroup(candidates, i + 1, key, member + [i])
  {
    assert forall j | 0 <= j < |member| :: member[j] in member;
  }

  /** A join group's members follow from its key. */
  lemma {:induction false} OnlyMembers(candidates: seq<Candidate>, n: nat, key: nat, member: seq<nat>)
    requires n <= |candidates| && InGroup(candidates, n, key, member)
    ensures member == MembersWith(candidates, n, key)
  {
    hide *;
    MembersStep(candidates, n, key);
    if n == 0 {
      NoMembers(candidates, key, member);
    } else if candidates[n - 1].joinKey == key {
      LastMember(candidates, n, key, member);
      OnlyMembers(candidates, n - 1, key, member[..|member| - 1]);
    } else {
      NotAMember(candidates, n, key, member);
      OnlyMembers(candidates, n - 1, key, member);
    }
  }

  lemma MembersStep(candidates: seq<Candidate>, n: nat, key: nat)
    requires n <= |candidates|
    ensures MembersWith(candidates, n, key)
         == if n == 0 then []
            else MembersWith(candidates, n - 1, key) + if candidates[n - 1].joinKey == key then [n - 1] else []
  {
    hide InGroup;
  }

  lemma NoMembers(candidates: seq<Candidate>, key: nat, member: seq<nat>)
    requires InGroup(candidates, 0, key, member)
    ensures member == []
  {
    FirstIn(member);
  }

  lemma FirstIn(member: seq<nat>)
    ensures member == [] || member[0] in member
  {
  }

  lemma NotAMember(candidates: seq<Candidate>, n: nat, key: nat, member: seq<nat>)
    requires 0 < n <= |candidates| && InGroup(candidates, n, key, member) && candidates[n - 1].joinKey != key
    ensures InGroup(candidates, n - 1, key, member)
  {
  }

  lemma LastMember(candidates: seq<Candidate>, n: nat, key: nat, member: seq<nat>)
    requires 0 < n <= |candidates| && InGroup(candidates, n, key, member) && candidates[n - 1].joinKey == key
    ensures member != [] && member == member[..|member| - 1] + [n - 1]
    ensures InGroup(candidates, n - 1, key, member[..|member| - 1])
  {
    OrderedBelow(candidates, n, key, member);
    assert n - 1 in member;
    hide InGroup;
    var k :| 0 <= k < |member| && member[k] == n - 1;
    var rest := member[..k];
    assert k == |member| - 1;
    assert member == rest + [n - 1];
    WithoutLastMember(candidates, n, key, rest);
  }

  lemma OrderedBelow(candidates: seq<Candidate>, n: nat, key: nat, member: seq<nat>)
    requires InGroup(candidates, n, key, member)
    ensures forall k | 0 <= k < |member| - 1 :: member[k] < n - 1
  {
    if member != [] {
      var last := member[|member| - 1];
      assert last in member;
      assert forall k | 0 <= k < |member| - 1 :: member[k] < last;
    }
  }

  lemma WithoutLastMember(candidates: seq<Candidate>, n: nat, key: nat, rest: seq<nat>)
    requires 0 < n <= |candidates| && InGroup(candidates, n, key, rest + [n - 1])
    ensures InGroup(candidates, n - 1, key, rest)
  {
    var member := rest + [n - 1];
    assert forall j | 0 <= j < |rest| :: rest[j] == member[j] && member[j] < member[|rest|] && member[j] in member;
    forall i | i in rest
      ensures i < n - 1 && candidates[i].joinKey == key
    {
      var j :| 0 <= j < |rest| && rest[j] == i;
    }
    forall i | 0 <= i < n - 1 && candidates[i].joinKey == key
      ensures i in rest
    {
      assert i in member;
    }
  }

  /** Plan generation returns for the join group with this key. */
  ghost predicate KeyFinishes(candidates: seq<Candidate>, key: nat, order: Order) {
    GroupFinishes(VariablesOf(candidates, MembersWith(candidates, |candidates|, key)), key, order)
  }

  ghost predicate GroupsFinish(candidates: seq<Candidate>, order: Order) {
    forall c | c in candidates :: KeyFinishes(candidates, c.joinKey, order)
  }

  method PlanJoinGroups(group: LiteralGroup, order: Order, ghost setup: Setup) returns (done: bool, groups: JoinGroups)
    requires setup.GroupOk(group) && Enumerates(order)
    ensures done ==> Ready(setup, group, groups)
    ensures done <==> GroupsFinish(group.candidates, order)
  {
    hide *;
    var keys, members := GroupByJoinKey(group.candidates);
    KeysExist(setup, group, keys, members);
    var atoms: seq<seq<FilterAtom>>, plans: seq<PredicateEvaluationPlan> := [], [];
    for g := 0 to |keys|
      invariant |atoms| == |plans| == g
      invariant forall h | 0 <= h < g :: PlanReady(setup, group, keys[h], members[h], atoms[h], plans[h])
      invariant forall h | 0 <= h < g :: KeyFinishes(group.candidates, keys[h], order)
    {
      GroupIsPlannable(setup, group, keys, members, g, order);
      var generated := GeneratePredicateEvaluationPlan(VariablesOf(group.candidates, members[g]), keys[g], order);
      if generated.Diverges? {
        return false, JoinGroups([], [], [], []);
      }
      PlanIsReady(setup, group, keys[g], members[g], generated.atoms, generated.plan);
      atoms, plans := atoms + [generated.atoms], plans + [generated.plan];
    }
    done, groups := true, JoinGroups(keys, members, atoms, plans);
    ReadyFrom(setup, group, groups);
    EveryKeyFinishes(group.candidates, keys, members, order);
  }

  lemma EveryKeyFinishes(candidates: seq<Candidate>, keys: seq<nat>, members: seq<seq<nat>>, order: Order)
    requires Grouped(candidates, |candidates|, keys, members)
    requires forall g | 0 <= g < |keys| :: KeyFinishes(candidates, keys[g], order)
    ensures GroupsFinish(candidates, order)
  {
    hide InGroup, KeyFinishes;
    forall c | c in candidates
      ensures KeyFinishes(candidates, c.joinKey, order)
    {
      var i :| 0 <= i < |candidates| && candidates[i] == c;
      var g :| 0 <= g < |keys| && keys[g] == candidates[i].joinKey;
    }
  }

  /** At most two equalities besides the join key. */
  ghost predicate FewAtoms(c: Candidate) {
    |BoundAtoms(c.variables, c.joinKey, |c.variables|)| <= 2
  }

  lemma KeysExist(setup: Setup, group: LiteralGroup, keys: seq<nat>, members: seq<seq<nat>>)
    requires setup.GroupOk(group) && Grouped(group.candidates, |group.candidates|, keys, members)
    ensures keys != [] && |keys| == |members|
  {
    assert group.candidates != [];
    hide InGroup, Setup.GroupOk;
    var c := group.candidates[0];
    var g :| 0 <= g < |keys| && keys[g] == c.joinKey;
  }

  lemma GroupIsPlannable(setup: Setup, group: LiteralGroup, keys: seq<nat>, members: seq<seq<nat>>, g: nat,
                         order: Order)
    requires setup.GroupOk(group) && Grouped(group.candidates, |group.candidates|, keys, members) && g < |keys|
    ensures forall i | i in members[g] :: i < |group.candidates|
    ensures InGroup(group.candidates, |group.candidates|, keys[g], members[g])
    ensures JoinGroup(VariablesOf(group.candidates, members[g]), keys[g])
    ensures KeyFinishes(group.candidates, keys[g], order)
            <==> GroupFinishes(VariablesOf(group.candidates, members[g]), keys[g], order)
    ensures GroupsFinish(group.candidates, order) ==> KeyFinishes(group.candidates, keys[g], order)
  {
    hide JoinGroup, GroupFinishes, Setup.GroupOk;
    assert InGroup(group.candidates, |group.candidates|, keys[g], members[g]) && members[g] != [];
    MembersAreAGroup(setup, group, keys[g], members[g]);
    OnlyMembers(group.candidates, |group.candidates|, keys[g], members[g]);
    var i := members[g][0];
    assert i in members[g] && group.candidates[i] in group.candidates && group.candidates[i].joinKey == keys[g];
    hide KeyFinishes;
  }

  /** Of a candidate's join group, it and the others. */
  lemma KeyFinishesIff(setup: Setup, group: LiteralGroup, c: Candidate)
    requires setup.GroupOk(group) && c in group.candidates
    ensures (forall order | Enumerates(order) :: KeyFinishes(group.candidates, c.joinKey, order))
            <==> forall d | d in group.candidates && d.joinKey == c.joinKey :: FewAtoms(d)
  {
    var candidates, key := group.candidates, c.joinKey;
    var member := MembersWith(candidates, |candidates|, key);
    var i :| 0 <= i < |candidates| && candidates[i] == c;
    assert i in member;
    hide Setup.GroupOk;
    MembersAreAGroup(setup, group, key, member);
    GroupFinishesIff(VariablesOf(candidates, member), key);
    MembersHaveFew(candidates, key, member);
    hide *;
    SameFinishes(candidates, key, member);
  }

  lemma SameFinishes(candidates: seq<Candidate>, key: nat, member: seq<nat>)
    requires member == MembersWith(candidates, |candidates|, key)
    ensures forall i | i in member :: i < |candidates|
    ensures forall order ::
              KeyFinishes(candidates, key, order) <==> GroupFinishes(VariablesOf(candidates, member), key, order)
  {
    hide GroupFinishes;
  }

  lemma MembersHaveFew(candidates: seq<Candidate>, key: nat, member: seq<nat>)
    requires InGroup(candidates, |candidates|, key, member)
    ensures FewBoundAtoms(VariablesOf(candidates, member), key)
            <==> forall d | d in candidates && d.joinKey == key :: FewAtoms(d)
  {
    hide BoundAtoms;
    var vs := VariablesOf(candidates, member);
    forall l | 0 <= l < |vs|
      ensures candidates[member[l]].joinKey == key && vs[l] == candidates[member[l]].variables
      ensures candidates[member[l]] in candidates
    {
      assert member[l] in member;
    }
    if FewBoundAtoms(vs, key) {
      forall d | d in candidates && d.joinKey == key
        ensures FewAtoms(d)
      {
        var i :| 0 <= i < |candidates| && candidates[i] == d;
        assert i in member;
        var l :| 0 <= l < |member| && member[l] == i;
        assert vs[l] == d.variables;
      }
    }
    if forall d | d in candidates && d.joinKey == key :: FewAtoms(d) {
      forall l | 0 <= l < |vs|
        ensures |BoundAtoms(vs[l], key, |vs[l]|)| <= 2
      {
        assert FewAtoms(candidates[member[l]]);
      }
    }
  }

  /** Plan generation returns for all predicates. */
  ghost predicate PlansFinish(setup: Setup, order: Order) {
    forall t | 0 <= t < |setup.groups| :: GroupsFinish(setup.groups[t].candidates, order)
  }

  /** Plan generation returns whatever order the unordered sets are walked in if and
      only if no candidate has more than two equalities besides its join key. */
  lemma PlansFinishIff(setup: Setup)
    requires setup.Valid()
    ensures (forall order | Enumerates(order) :: PlansFinish(setup, order))
            <==> forall t, c | 0 <= t < |setup.groups| && c in setup.groups[t].candidates :: FewAtoms(c)
  {
    hide Setup.GroupOk, KeyFinishes, FewAtoms, Enumerates;
    forall t, c | 0 <= t < |setup.groups| && c in setup.groups[t].candidates
      ensures (forall order | Enumerates(order) :: KeyFinishes(setup.groups[t].candidates, c.joinKey, order))
              <==> forall d | d in setup.groups[t].candidates && d.joinKey == c.joinKey :: FewAtoms(d)
    {
      assert setup.GroupOk(setup.groups[t]);
      KeyFinishesIff(setup, setup.groups[t], c);
    }
    if forall order | Enumerates(order) :: PlansFinish(setup, order) {
      forall t, c | 0 <= t < |setup.groups| && c in setup.groups[t].candidates
        ensures FewAtoms(c)
      {
        forall order | Enumerates(order)
          ensures KeyFinishes(setup.groups[t].candidates, c.joinKey, order)
        {
          assert PlansFinish(setup, order);
          assert GroupsFinish(setup.groups[t].candidates, order);
        }
      }
    }
  }

  lemma PlanIsReady(setup: Setup, group: LiteralGroup, key: nat, member: seq<nat>, atoms: seq<FilterAtom>,
                    plan: PredicateEvaluationPlan)
    requires setup.GroupOk(group) && InGroup(group.candidates, |group.candidates|, key, member)
    requires PlanFor(plan, atoms, VariablesOf(group.candidates, member), key)
    ensures PlanReady(setup, group, key, member, atoms, plan)
  {
    var vs := VariablesOf(group.candidates, member);
    forall a | a in atoms
      ensures a.probeColumn < |group.table.columns| && a.buildColumn < setup.numVariables
    {
      assert Wanted(vs, key, |vs|, a);
      var l :| 0 <= l < |vs| && a in BoundAtoms(vs[l], key, |vs[l]|);
      assert member[l] in member;
      assert group.candidates[member[l]] in group.candidates;
    }
  }

  lemma ReadyFrom(setup: Setup, group: LiteralGroup, groups: JoinGroups)
    requires setup.GroupOk(group) && Grouped(group.candidates, |group.candidates|, groups.keys, groups.members)
    requires groups.keys != [] && |groups.atoms| == |groups.plans| == |groups.keys|
    requires forall g | 0 <= g < |groups.keys| ::
               PlanReady(setup, group, groups.keys[g], groups.members[g], groups.atoms[g], groups.plans[g])
    ensures Ready(setup, group, groups)
  {
    hide PlanReady;
    forall g | 0 <= g < |groups.keys|
      ensures groups.keys[g] < |group.table.columns|
    {
      MembersAreAGroup(setup, group, groups.keys[g], groups.members[g]);
    }
  }

  /** All predicates: their join groups and partitioned tables. */
  ghost predicate AllReady(setup: Setup, views: seq<TableView>, groups: seq<JoinGroups>) {
    && |views| == |groups| == |setup.groups|
    && forall t | 0 <= t < |views| ::
         Ready(setup, setup.groups[t], groups[t]) && ViewReady(setup, setup.groups[t], views[t], groups[t])
  }

  ghost predicate ViewReady(setup: Setup, group: LiteralGroup, view: TableView, groups: JoinGroups) {
    && view.columns == group.table.columns && PartitionsOk(view, setup.hash, setup.numRadixBits)
    && forall g | 0 <= g < |groups.keys| :: groups.keys[g] in view.partitions
  }

  /** The first predicates, planned and partitioned. */
  ghost predicate Prepared(setup: Setup, order: Order, views: seq<TableView>, groups: seq<JoinGroups>) {
    && |views| == |groups| <= |setup.groups|
    && forall t | 0 <= t < |views| ::
         && Ready(setup, setup.groups[t], groups[t]) && ViewReady(setup, setup.groups[t], views[t], groups[t])
         && GroupsFinish(setup.groups[t].candidates, order)
  }

  lemma PreparedNext(setup: Setup, order: Order, views: seq<TableView>, groups: seq<JoinGroups>, view: TableView,
                     group: JoinGroups)
    requires Prepared(setup, order, views, groups) && |views| < |setup.groups|
    requires var t := |views|;
             Ready(setup, setup.groups[t], group) && ViewReady(setup, setup.groups[t], view, group)
             && GroupsFinish(setup.groups[t].candidates, order)
    ensures Prepared(setup, order, views + [view], groups + [group])
  {
    hide Ready, ViewReady, GroupsFinish;
  }

  lemma AllPrepared(setup: Setup, order: Order, views: seq<TableView>, groups: seq<JoinGroups>)
    requires Prepared(setup, order, views, groups) && |views| == |setup.groups|
    ensures AllReady(setup, views, groups) && PlansFinish(setup, order)
  {
    hide Ready, ViewReady, GroupsFinish;
  }

  lemma OneDiverges(setup: Setup, order: Order, t: nat)
    requires t < |setup.groups| && !GroupsFinish(setup.groups[t].candidates, order)
    ensures !PlansFinish(setup, order)
  {
  }

  method PrepareGroups(setup: Setup, order: Order) returns (done: bool, views: seq<TableView>, groups: seq<JoinGroups>)
    requires setup.Valid() && Enumerates(order)
    ensures done ==> AllReady(setup, views, groups)
    ensures done <==> PlansFinish(setup, order)
  {
    assert forall t | 0 <= t < |setup.groups| :: setup.GroupOk(setup.groups[t]);
    views, groups := [], [];
    assert Prepared(setup, order, views, groups);
    hide *;
    for t := 0 to |setup.groups|
      invariant |views| == |groups| == t && Prepared(setup, order, views, groups)
    {
      var group := setup.groups[t];
      GroupFacts(setup, group);
      var planned, joinGroups := PlanJoinGroups(group, order, setup);
      if !planned {
        OneDiverges(setup, order, t);
        return false, [], [];
      }
      KeysFit(setup, group, joinGroups);
      var view := PartitionColumns(group.table, joinGroups.keys, setup.hash, setup.numRadixBits);
      ViewIsReady(setup, group, view, joinGroups);
      PreparedNext(setup, order, views, groups, view, joinGroups);
      views, groups := views + [view], groups + [joinGroups];
    }
    AllPrepared(setup, order, views, groups);
    done := true;
  }

  lemma GroupFacts(setup: Setup, group: LiteralGroup)
    requires setup.GroupOk(group)
    ensures PartitionsOk(group.table, setup.hash, setup.numRadixBits)
  {
  }

  lemma ViewIsReady(setup: Setup, group: LiteralGroup, view: TableView, groups: JoinGroups)
    requires view.columns == group.table.columns && PartitionsOk(view, setup.hash, setup.numRadixBits)
    requires forall g | 0 <= g < |groups.keys| :: groups.keys[g] in view.partitions
    ensures ViewReady(setup, group, view, groups)
  {
  }

  lemma KeysFit(setup: Setup, group: LiteralGroup, groups: JoinGroups)
    requires Ready(setup, group, groups)
    ensures forall g | 0 <= g < |groups.keys| :: groups.keys[g] < |group.table.columns|
  {
    hide PlanReady;
  }

  // ---------------------------------------------------------------------
  // One pass over one binding table
  // ---------------------------------------------------------------------

  function InputsOf(setup: Setup, views: seq<TableView>, groups: seq<JoinGroups>, bindings: seq<seq<Value>>,
                    run: Run): (inputs: Inputs)
    requires setup.clauseKey < |bindings|
  {
    Inputs(Work(views, seq(|groups|, t requires 0 <= t < |groups| => groups[t].keys), Pow2(setup.numRadixBits),
                setup.chunkSize),
           Job(bindings[setup.clauseKey], setup.hash, setup.numRadixBits), bindings,
           seq(|groups|, t requires 0 <= t < |groups| => groups[t].atoms), run)
  }

  lemma ReadyAt(setup: Setup, views: seq<TableView>, groups: seq<JoinGroups>, t: nat)
    requires setup.Valid() && AllReady(setup, views, groups) && t < |views|
    ensures |views| == |groups| == |setup.groups| && setup.GroupOk(setup.groups[t])
    ensures Ready(setup, setup.groups[t], groups[t]) && ViewReady(setup, setup.groups[t], views[t], groups[t])
  {
    hide Ready, ViewReady, Setup.GroupOk;
  }

  lemma SetupFits(setup: Setup, views: seq<TableView>, groups: seq<JoinGroups>, bindings: seq<seq<Value>>)
    requires setup.Valid() && AllReady(setup, views, groups) && Table(bindings, setup.numVariables)
    ensures setup.clauseKey < setup.numVariables == |bindings|
    ensures 0 < |views| == |groups| == |setup.groups| && setup.numRadixBits > 0 && setup.chunkSize > 0
    ensures forall c | c in bindings :: |c| == |bindings[setup.clauseKey]|
  {
    hide Ready, ViewReady, Setup.GroupOk;
    assert bindings[setup.clauseKey] in bindings;
  }

  lemma InputsAreValid(setup: Setup, views: seq<TableView>, groups: seq<JoinGroups>, bindings: seq<seq<Value>>,
                       run: Run)
    requires setup.Valid() && AllReady(setup, views, groups) && Table(bindings, setup.numVariables)
    ensures |bindings| == setup.numVariables > setup.clauseKey && InputsOf(setup, views, groups, bindings, run).Valid()
  {
    SetupFits(setup, views, groups, bindings);
    WorkIsValid(setup, views, groups, bindings, run);
    AtomsFit(setup, views, groups, bindings, run);
    TablesFitAtoms(setup, views, groups, bindings, run);
    hide *;
    InputsFrom(setup, views, groups, bindings, run);
  }

  lemma AtomsFit(setup: Setup, views: seq<TableView>, groups: seq<JoinGroups>, bindings: seq<seq<Value>>, run: Run)
    requires setup.Valid() && AllReady(setup, views, groups) && setup.clauseKey < setup.numVariables == |bindings|
    requires |views| == |groups|
    ensures var inputs := InputsOf(setup, views, groups, bindings, run);
            forall t, g, a | 0 <= t < |inputs.atoms| && 0 <= g < |inputs.atoms[t]| && a in inputs.atoms[t][g] ::
              t < |inputs.work.tables| && a.probeColumn < |inputs.work.tables[t].columns|
              && a.buildColumn < |inputs.buildColumns|
  {
    hide AllReady, Setup.Valid;
    var inputs := InputsOf(setup, views, groups, bindings, run);
    forall t, g, a | 0 <= t < |inputs.atoms| && 0 <= g < |inputs.atoms[t]| && a in inputs.atoms[t][g]
      ensures t < |inputs.work.tables| && a.probeColumn < |inputs.work.tables[t].columns|
              && a.buildColumn < |inputs.buildColumns|
    {
      AtomFits(setup, views, groups, bindings, run, t, g, a);
    }
  }

  lemma TablesFitAtoms(setup: Setup, views: seq<TableView>, groups: seq<JoinGroups>, bindings: seq<seq<Value>>,
                       run: Run)
    requires setup.Valid() && AllReady(setup, views, groups) && setup.clauseKey < setup.numVariables == |bindings|
    requires |views| == |groups|
    ensures var inputs := InputsOf(setup, views, groups, bindings, run);
            forall t | 0 <= t < |inputs.work.tables| ::
              t < |inputs.atoms| && |inputs.atoms[t]| == |inputs.work.columnIds[t]|
              && Rectangular(inputs.work.tables[t].columns)
  {
    hide AllReady, Setup.Valid;
    var inputs := InputsOf(setup, views, groups, bindings, run);
    forall t | 0 <= t < |inputs.work.tables|
      ensures t < |inputs.atoms| && |inputs.atoms[t]| == |inputs.work.columnIds[t]|
              && Rectangular(inputs.work.tables[t].columns)
    {
      TableFits(setup, views, groups, bindings, run, t);
    }
  }

  lemma InputsFrom(setup: Setup, views: seq<TableView>, groups: seq<JoinGroups>, bindings: seq<seq<Value>>, run: Run)
    requires setup.clauseKey < |bindings| && |views| == |groups|
    requires forall c | c in bindings :: |c| == |bindings[setup.clauseKey]|
    requires var inputs := InputsOf(setup, views, groups, bindings, run);
             && Partitioned(inputs.work, inputs.bindings)
             && (forall t | 0 <= t < |inputs.work.tables| ::
                   t < |inputs.atoms| && |inputs.atoms[t]| == |inputs.work.columnIds[t]|
                   && Rectangular(inputs.work.tables[t].columns))
             && forall t, g, a | 0 <= t < |inputs.atoms| && 0 <= g < |inputs.atoms[t]| && a in inputs.atoms[t][g] ::
                  t < |inputs.work.tables| && a.probeColumn < |inputs.work.tables[t].columns|
                  && a.buildColumn < |inputs.buildColumns|
    ensures InputsOf(setup, views, groups, bindings, run).Valid()
  {
    hide Partitioned, Rectangular;
  }

  lemma AtomFits(setup: Setup, views: seq<TableView>, groups: seq<JoinGroups>, bindings: seq<seq<Value>>, run: Run,
                 t: nat, g: nat, a: FilterAtom)
    requires setup.Valid() && AllReady(setup, views, groups) && setup.clauseKey < setup.numVariables == |bindings|
    requires t < |views| == |groups| && g < |groups[t].atoms| && a in groups[t].atoms[g]
    ensures a.probeColumn < |views[t].columns| && a.buildColumn < |bindings|
  {
    ReadyAt(setup, views, groups, t);
    hide AllReady, Setup.Valid, Ready, ViewReady, Setup.GroupOk;
    GroupFits(setup, setup.groups[t], views[t], groups[t]);
  }

  lemma TableFits(setup: Setup, views: seq<TableView>, groups: seq<JoinGroups>, bindings: seq<seq<Value>>, run: Run,
                  t: nat)
    requires setup.Valid() && AllReady(setup, views, groups) && setup.clauseKey < setup.numVariables == |bindings|
    requires t < |views| == |groups|
    ensures |groups[t].atoms| == |groups[t].keys| && Rectangular(views[t].columns)
  {
    ReadyAt(setup, views, groups, t);
    hide AllReady, Setup.Valid, Ready, ViewReady, Setup.GroupOk;
    GroupFits(setup, setup.groups[t], views[t], groups[t]);
  }

  lemma GroupFits(setup: Setup, group: LiteralGroup, view: TableView, groups: JoinGroups)
    requires setup.GroupOk(group) && Ready(setup, group, groups) && ViewReady(setup, group, view, groups)
    ensures |groups.atoms| == |groups.keys| && Rectangular(view.columns)
    ensures forall g, a | 0 <= g < |groups.atoms| && a in groups.atoms[g] ::
              a.probeColumn < |view.columns| && a.buildColumn < setup.numVariables
  {
    hide Grouped, PlanFor, InGroup, PartitionsOk, Rectangular;
    forall g | 0 <= g < |groups.keys|
      ensures PlanReady(setup, group, groups.keys[g], groups.members[g], groups.atoms[g], groups.plans[g])
    {
    }
  }

  /** Column c of the table is partitioned into its buckets. */
  ghost predicate ColumnReady(setup: Setup, view: TableView, c: nat) {
    && c < |view.columns|
    && var job := Job(view.columns[c], setup.hash, setup.numRadixBits);
    && |view.PartitionsAt(c)| == job.Count()
    && forall p | 0 <= p < job.Count() :: view.PartitionsAt(c)[p] == job.Bucket(p, |job.column|)
  }

  lemma ColumnIsReady(setup: Setup, views: seq<TableView>, groups: seq<JoinGroups>, t: nat, g: nat)
    requires setup.Valid() && AllReady(setup, views, groups) && t < |views| == |groups| && g < |groups[t].keys|
    ensures ColumnReady(setup, views[t], groups[t].keys[g])
  {
    ReadyAt(setup, views, groups, t);
    hide PlanReady, Grouped, AllReady, Setup.Valid, Setup.GroupOk;
  }

  lemma WorkIsValid(setup: Setup, views: seq<TableView>, groups: seq<JoinGroups>, bindings: seq<seq<Value>>, run: Run)
    requires setup.Valid() && AllReady(setup, views, groups) && Table(bindings, setup.numVariables)
    ensures |bindings| == setup.numVariables > setup.clauseKey
    ensures Partitioned(InputsOf(setup, views, groups, bindings, run).work,
                        InputsOf(setup, views, groups, bindings, run).bindings)
  {
    SetupFits(setup, views, groups, bindings);
    hide *;
    forall t | 0 <= t < |views|
      ensures groups[t].keys != []
    {
      ReadyAt(setup, views, groups, t);
      KeysAreThere(setup, setup.groups[t], groups[t]);
    }
    forall t, g | 0 <= t < |views| && 0 <= g < |groups[t].keys|
      ensures ColumnReady(setup, views[t], groups[t].keys[g])
    {
      ColumnIsReady(setup, views, groups, t, g);
    }
    WorkFrom(setup, views, groups, bindings, run);
  }

  lemma KeysAreThere(setup: Setup, group: LiteralGroup, groups: JoinGroups)
    requires Ready(setup, group, groups)
    ensures groups.keys != []
  {
    hide PlanReady, Grouped;
  }

  lemma WorkFrom(setup: Setup, views: seq<TableView>, groups: seq<JoinGroups>, bindings: seq<seq<Value>>, run: Run)
    requires setup.clauseKey < |bindings| && 0 < |views| == |groups| && setup.chunkSize > 0
    requires forall t | 0 <= t < |views| :: groups[t].keys != []
    requires forall t, g | 0 <= t < |views| && 0 <= g < |groups[t].keys| ::
               ColumnReady(setup, views[t], groups[t].keys[g])
    ensures Partitioned(InputsOf(setup, views, groups, bindings, run).work,
                        InputsOf(setup, views, groups, bindings, run).bindings)
  {
    hide Job.Bucket;
    var inputs := InputsOf(setup, views, groups, bindings, run);
    var w := inputs.work;
    assert inputs.bindings.Count() == Pow2(setup.numRadixBits);
    forall t, g | 0 <= t < |w.tables| && 0 <= g < |w.columnIds[t]|
      ensures |w.tables[t].PartitionsAt(w.columnIds[t][g])| == w.numPartitions
    {
      assert ColumnReady(setup, views[t], groups[t].keys[g]);
    }
    assert w.Valid();
    forall t, g | 0 <= t < |w.tables| && 0 <= g < |w.columnIds[t]|
      ensures w.columnIds[t][g] < |w.tables[t].columns|
      ensures forall p | 0 <= p < w.numPartitions :: w.Part(p, t, g) == KeyJoinOf(w, t, g, inputs.bindings).FactPart(p)
    {
      assert ColumnReady(setup, views[t], groups[t].keys[g]);
    }
  }

  // ---------------------------------------------------------------------
  // From counters to scores
  // ---------------------------------------------------------------------

  lemma AllHoldMeansAgrees(facts: seq<seq<Value>>, bindings: seq<seq<Value>>, c: Candidate, atoms: seq<FilterAtom>,
                           places: set<nat>, run: Run, q: Pair)
    requires c.joinKey < |c.variables| && c.variables[c.joinKey] >= 0 && forall a | a in places :: a < |atoms|
    requires BoundAtoms(c.variables, c.joinKey, |c.variables|) == set a | a in places :: atoms[a]
    ensures Agrees(facts, bindings, c.variables, q.fact, q.binding)
            <==> AllHold(Context(atoms, facts, bindings, run), places, q)
                 && AgreesAt(facts, bindings, c.joinKey, c.variables[c.joinKey], q.fact, q.binding)
  {
    var ctx := Context(atoms, facts, bindings, run);
    if AllHold(ctx, places, q) && AgreesAt(facts, bindings, c.joinKey, c.variables[c.joinKey], q.fact, q.binding) {
      forall v | 0 <= v < |c.variables| && c.variables[v] >= 0
        ensures AgreesAt(facts, bindings, v, c.variables[v], q.fact, q.binding)
      {
        if v != c.joinKey {
          assert FilterAtom(v, c.variables[v]) in BoundAtoms(c.variables, c.joinKey, |c.variables|);
          var a :| a in places && atoms[a] == FilterAtom(v, c.variables[v]);
          assert AtomHolds(ctx, a, q);
        }
      }
    }
    if Agrees(facts, bindings, c.variables, q.fact, q.binding) {
      forall a | a in places
        ensures AtomHolds(ctx, a, q)
      {
        assert atoms[a] in BoundAtoms(c.variables, c.joinKey, |c.variables|);
        var v :| 0 <= v < |c.variables| && v != c.joinKey && c.variables[v] >= 0
        && atoms[a] == FilterAtom(v, c.variables[v]);
        assert AgreesAt(facts, bindings, v, c.variables[v], q.fact, q.binding);
      }
    }
  }

  lemma SelectedAreWitnesses(facts: seq<seq<Value>>, bindings: seq<seq<Value>>, c: Candidate, atoms: seq<FilterAtom>,
                             places: set<nat>,
                             run: Run, hash: Hash, bits: nat)
    requires Rectangular(facts) && Rectangular(bindings) && |c.variables| == |facts|
    requires c.joinKey < |facts| && 0 <= c.variables[c.joinKey] < |bindings| && forall a | a in places :: a < |atoms|
    requires BoundAtoms(c.variables, c.joinKey, |c.variables|) == set a | a in places :: atoms[a]
    ensures var pairs := KeyJoin(facts[c.joinKey], bindings[c.variables[c.joinKey]], hash, bits).EqualPairs();
            forall q :: q in Witnesses(facts, bindings, c.variables)
                        <==> q in pairs && AllHold(Context(atoms, facts, bindings, run), places, q)
  {
    assert facts[0] in facts && bindings[0] in bindings;
    var key, w := c.joinKey, c.variables[c.joinKey];
    assert facts[key] in facts && bindings[w] in bindings;
    var pairs := KeyJoin(facts[key], bindings[w], hash, bits).EqualPairs();
    forall q
      ensures q in Witnesses(facts, bindings, c.variables)
              <==> q in pairs && AllHold(Context(atoms, facts, bindings, run), places, q)
    {
      AllHoldMeansAgrees(facts, bindings, c, atoms, places, run, q);
      hide AllHold, BoundAtoms, Agrees;
      assert q in pairs <==> AgreesAt(facts, bindings, key, w, q.fact, q.binding);
      assert q == Pair(q.fact, q.binding);
    }
  }

  function ScoreOf(t: Tally): (s: Score) {
    Score(t.bindings, t.covered)
  }

  lemma TallyIsScore(t: Tally, pairs: set<Pair>, sel: Selection, ws: set<Pair>)
    requires TallyCounts(t, pairs, sel)
    requires forall q :: q in ws <==> q in pairs && sel(q)
    ensures ScoreIs(ScoreOf(t), ws)
  {
    assert ws == set q | q in pairs && sel(q);
    assert (set q | q in ws :: q.binding) == set q | q in pairs && sel(q) :: q.binding;
  }

  /** The score of a candidate for one label. */
  ghost predicate Scored(setup: Setup, bindings: seq<seq<Value>>, run: Run, group: LiteralGroup, c: Candidate,
                         positive: Score, negative: Score) {
    var ws := Witnesses(group.table.columns, bindings, c.variables);
    && (!run.OnlyNegative? ==> ScoreIs(positive, PositiveOnes(run, ws)))
    && (!run.OnlyPositive? ==> ScoreIs(negative, NegativeOnes(run, ws)))
  }

  ghost predicate PlaceCounted(inputs: Inputs, plan: PredicateEvaluationPlan, t: nat, g: nat, place: nat,
                               positive: Tally, negative: Tally) {
    && inputs.Valid() && inputs.Group(t, g) && plan.WellFormed() && place <= |plan.nodes| && plan.HasLiteral(place)
    && PlaceCounts(inputs, plan, t, g, place, positive, negative)
  }

  /** The counters at a place are the score of the literal there. */
  ghost predicate PlaceScored(setup: Setup, bindings: seq<seq<Value>>, run: Run, group: LiteralGroup,
                              joined: JoinGroups, g: nat, place: nat,
                              positive: Tally, negative: Tally)
  {
    && g < |joined.members| && g < |joined.plans| && place <= |joined.plans[g].nodes|
    && var member, l := joined.members[g], joined.plans[g].LiteralAt(place);
    && 0 <= l < |member| && member[l] < |group.candidates|
    && Scored(setup, bindings, run, group, group.candidates[member[l]], ScoreOf(positive), ScoreOf(negative))
  }

  lemma PlaceIsScored(setup: Setup, views: seq<TableView>, groups: seq<JoinGroups>, bindings: seq<seq<Value>>, run: Run,
                      t: nat, g: nat, place: nat, positive: Tally, negative: Tally)
    requires setup.Valid() && AllReady(setup, views, groups) && Table(bindings, setup.numVariables)
    requires |bindings| == setup.numVariables > setup.clauseKey
    requires t < |views| == |groups| == |setup.groups| && g < |groups[t].keys| == |groups[t].plans|
    requires PlaceCounted(InputsOf(setup, views, groups, bindings, run), groups[t].plans[g], t, g, place, positive,
                          negative)
    ensures PlaceScored(setup, bindings, run, setup.groups[t], groups[t], g, place, positive, negative)
  {
    var group, plan, atoms := setup.groups[t], groups[t].plans[g], groups[t].atoms[g];
    ReadyAt(setup, views, groups, t);
    hide AllReady, Setup.Valid, PlanReady, Setup.GroupOk, Grouped;
    MeaningOf(setup, group, groups[t], g, place);
    var c := group.candidates[groups[t].members[g][plan.LiteralAt(place)]];
    hide Ready;
    assert |groups[t].atoms| > g && group.table.columns == views[t].columns && c.joinKey == groups[t].keys[g];
    PlaceTallies(setup, views, groups, bindings, run, t, g, plan, place, c.joinKey, positive, negative);
    hide *;
    ScoreFollows(setup, group, bindings, run, c, atoms, plan.PlaceAtoms(place), positive, negative);
    ScoredThere(setup, bindings, run, group, groups[t], g, place, positive, negative);
  }

  lemma ScoredThere(setup: Setup, bindings: seq<seq<Value>>, run: Run, group: LiteralGroup, joined: JoinGroups, g: nat,
                    place: nat,
                    positive: Tally, negative: Tally)
    requires g < |joined.members| && g < |joined.plans| && place <= |joined.plans[g].nodes|
    requires 0 <= joined.plans[g].LiteralAt(place) < |joined.members[g]|
    requires joined.members[g][joined.plans[g].LiteralAt(place)] < |group.candidates|
    requires Scored(setup, bindings, run, group, group.candidates[joined.members[g][joined.plans[g].LiteralAt(place)]],
                    ScoreOf(positive), ScoreOf(negative))
    ensures PlaceScored(setup, bindings, run, group, joined, g, place, positive, negative)
  {
    hide Scored;
  }

  /** The counters come to the selected pairs of the join on one key. */
  ghost predicate TalliesFit(setup: Setup, facts: seq<seq<Value>>, bindings: seq<seq<Value>>, run: Run, key: nat,
                             atoms: seq<FilterAtom>,
                             places: set<nat>, positive: Tally, negative: Tally)
  {
    && key < |facts| && setup.clauseKey < |bindings| && (forall a | a in places :: a < |atoms|)
    && var pairs := KeyJoin(facts[key], bindings[setup.clauseKey], setup.hash, setup.numRadixBits).EqualPairs();
    var ctx := Context(atoms, facts, bindings, run);
    && (!run.OnlyNegative? ==> TallyCounts(positive, pairs, PositiveSel(ctx, places)))
    && (!run.OnlyPositive? ==> TallyCounts(negative, pairs, NegativeSel(ctx, places)))
  }

  lemma PlaceTallies(setup: Setup, views: seq<TableView>, groups: seq<JoinGroups>, bindings: seq<seq<Value>>, run: Run,
                     t: nat, g: nat, plan: PredicateEvaluationPlan, place: nat, key: nat, positive: Tally,
                         negative: Tally)
    requires |bindings| == setup.numVariables > setup.clauseKey
    requires t < |views| == |groups| && g < |groups[t].keys| && g < |groups[t].atoms|
             && key == groups[t].keys[g] < |views[t].columns|
    requires PlaceCounted(InputsOf(setup, views, groups, bindings, run), plan, t, g, place, positive, negative)
    requires forall a | a in plan.PlaceAtoms(place) :: a < |groups[t].atoms[g]|
    ensures TalliesFit(setup, views[t].columns, bindings, run, key, groups[t].atoms[g], plan.PlaceAtoms(place),
                       positive, negative)
  {
    hide TallyCounts, Inputs.Valid, KeyJoin.EqualPairs, PredicateEvaluationPlan.PlaceAtoms;
    var inputs := InputsOf(setup, views, groups, bindings, run);
    assert inputs.Keys(t, g)
           == KeyJoin(views[t].columns[key], bindings[setup.clauseKey], setup.hash, setup.numRadixBits);
    assert inputs.Ctx(t, g) == Context(groups[t].atoms[g], views[t].columns, bindings, run);
  }


  lemma MeaningOf(setup: Setup, group: LiteralGroup, groups: JoinGroups, g: nat, place: nat)
    requires setup.GroupOk(group) && Ready(setup, group, groups) && g < |groups.keys|
    requires groups.plans[g].WellFormed() && place <= |groups.plans[g].nodes| && groups.plans[g].HasLiteral(place)
    ensures var member, l := groups.members[g], groups.plans[g].LiteralAt(place);
            && l < |member| && member[l] < |group.candidates|
            && var c := group.candidates[member[l]];
            && c.joinKey == groups.keys[g] && setup.CandidateOk(c, |group.table.columns|)
            && Rectangular(group.table.columns)
            && (forall a | a in groups.plans[g].PlaceAtoms(place) :: a < |groups.atoms[g]|)
            && BoundAtoms(c.variables, c.joinKey, |c.variables|) == set a | a in groups.plans[g].PlaceAtoms(place) ::
                 groups.atoms[g][a]
  {
    hide BoundAtoms, Grouped, PredicateEvaluationPlan.PlaceAtoms;
    var member, plan := groups.members[g], groups.plans[g];
    assert PlanReady(setup, group, groups.keys[g], member, groups.atoms[g], plan);
    var l := plan.LiteralAt(place);
    assert Means(plan, place, groups.atoms[g], VariablesOf(group.candidates, member), groups.keys[g], l);
    assert member[l] in member;
    assert group.candidates[member[l]] in group.candidates;
  }

  lemma ScoreFollows(setup: Setup, group: LiteralGroup, bindings: seq<seq<Value>>, run: Run, c: Candidate,
                     atoms: seq<FilterAtom>, places: set<nat>, positive: Tally, negative: Tally)
    requires Rectangular(group.table.columns) && Rectangular(bindings) && setup.CandidateOk(c, |group.table.columns|)
    requires setup.clauseKey < setup.numVariables == |bindings|
    requires forall a | a in places :: a < |atoms|
    requires BoundAtoms(c.variables, c.joinKey, |c.variables|) == set a | a in places :: atoms[a]
    requires TalliesFit(setup, group.table.columns, bindings, run, c.joinKey, atoms, places, positive, negative)
    ensures Scored(setup, bindings, run, group, c, ScoreOf(positive), ScoreOf(negative))
  {
    var facts := group.table.columns;
    SelectedAreWitnesses(facts, bindings, c, atoms, places, run, setup.hash, setup.numRadixBits);
    var ws := Witnesses(facts, bindings, c.variables);
    var pairs := KeyJoin(facts[c.joinKey], bindings[setup.clauseKey], setup.hash, setup.numRadixBits).EqualPairs();
    var ctx := Context(atoms, facts, bindings, run);
    hide AllHold, TallyCounts, KeyJoin.EqualPairs, Witnesses, BoundAtoms, ScoreIs, ScoreOf;
    if !run.OnlyNegative? {
      TallyIsScore(positive, pairs, PositiveSel(ctx, places), PositiveOnes(run, ws));
    }
    if !run.OnlyPositive? {
      TallyIsScore(negative, pairs, NegativeSel(ctx, places), NegativeOnes(run, ws));
    }
  }

  ghost predicate ScoredAt(setup: Setup, bindings: seq<seq<Value>>, run: Run, group: LiteralGroup, i: nat,
                           positive: seq<Score>, negative: seq<Score>)
  {
    && |positive| == |negative| == |group.candidates| && i < |group.candidates|
    && Scored(setup, bindings, run, group, group.candidates[i], positive[i], negative[i])
  }

  ghost predicate DoneScored(setup: Setup, bindings: seq<seq<Value>>, run: Run, group: LiteralGroup, done: set<nat>,
                             positive: seq<Score>, negative: seq<Score>)
  {
    && |positive| == |negative| == |group.candidates|
    && forall i | i in done :: ScoredAt(setup, bindings, run, group, i, positive, negative)
  }

  lemma OneMoreScored(setup: Setup, bindings: seq<seq<Value>>, run: Run, group: LiteralGroup, done: set<nat>,
                      positive: seq<Score>, negative: seq<Score>, i: nat, p: Score, n: Score)
    requires DoneScored(setup, bindings, run, group, done, positive, negative)
    requires i < |group.candidates| && Scored(setup, bindings, run, group, group.candidates[i], p, n)
    ensures DoneScored(setup, bindings, run, group, done + {i}, positive[i := p], negative[i := n])
  {
    hide Scored;
  }

  /** Reads the literals' counters off the places of one plan. */
  method GatherPlan(setup: Setup, views: seq<TableView>, groups: seq<JoinGroups>, bindings: seq<seq<Value>>, run: Run,
                    t: nat, g: nat,
                    positive: seq<Tally>, negative: seq<Tally>, positive0: seq<Score>, negative0: seq<Score>,
                        ghost done0: set<nat>)
    returns (positiveScores: seq<Score>, negativeScores: seq<Score>, ghost done: set<nat>)
    requires setup.Valid() && AllReady(setup, views, groups) && Table(bindings, setup.numVariables)
    requires |bindings| == setup.numVariables > setup.clauseKey
    requires t < |views| == |groups| == |setup.groups|
             && g < |groups[t].keys| == |groups[t].plans| == |groups[t].members|
    requires GroupCounts(InputsOf(setup, views, groups, bindings, run), groups[t].plans[g], t, g, positive, negative)
    requires |positive0| == |negative0| == |setup.groups[t].candidates|
    requires DoneScored(setup, bindings, run, setup.groups[t], done0, positive0, negative0)
    ensures |positiveScores| == |negativeScores| == |setup.groups[t].candidates|
    ensures DoneScored(setup, bindings, run, setup.groups[t], done, positiveScores, negativeScores)
    ensures done0 <= done && forall i | i in groups[t].members[g] :: i in done
  {
    hide *;
    ReadyAt(setup, views, groups, t);
    var member, plan := groups[t].members[g], groups[t].plans[g];
    EveryMemberHasPlace(setup, setup.groups[t], groups[t], g);
    CountsFit(InputsOf(setup, views, groups, bindings, run), plan, t, g, positive, negative);
    positiveScores, negativeScores, done := positive0, negative0, done0;
    for place := 0 to |plan.nodes| + 1
      invariant |positiveScores| == |negativeScores| == |setup.groups[t].candidates|
      invariant DoneScored(setup, bindings, run, setup.groups[t], done, positiveScores, negativeScores)
      invariant done0 <= done
      invariant forall p | 0 <= p < place && plan.HasLiteral(p) ::
                  0 <= plan.LiteralAt(p) < |member| && member[plan.LiteralAt(p)] in done
    {
      if plan.HasLiteral(place) {
        PlaceIsScored(setup, views, groups, bindings, run, t, g, place, positive[place], negative[place]);
        LiteralThere(setup, bindings, run, setup.groups[t], groups[t], g, place, positive[place], negative[place]);
        var i := member[plan.LiteralAt(place)];
        OneMoreScored(setup, bindings, run, setup.groups[t], done, positiveScores, negativeScores,
                      i, ScoreOf(positive[place]), ScoreOf(negative[place]));
        positiveScores := positiveScores[i := ScoreOf(positive[place])];
        negativeScores := negativeScores[i := ScoreOf(negative[place])];
        done := done + {i};
      }
    }
    AllMembersDone(member, plan, done);
  }

  lemma LiteralThere(setup: Setup, bindings: seq<seq<Value>>, run: Run, group: LiteralGroup, joined: JoinGroups,
                     g: nat, place: nat,
                     positive: Tally, negative: Tally)
    requires PlaceScored(setup, bindings, run, group, joined, g, place, positive, negative)
    ensures g < |joined.members| && g < |joined.plans| && place <= |joined.plans[g].nodes|
    ensures 0 <= joined.plans[g].LiteralAt(place) < |joined.members[g]|
    ensures joined.members[g][joined.plans[g].LiteralAt(place)] < |group.candidates|
    ensures Scored(setup, bindings, run, group, group.candidates[joined.members[g][joined.plans[g].LiteralAt(place)]],
                   ScoreOf(positive), ScoreOf(negative))
  {
    hide Scored;
  }

  lemma EveryMemberHasPlace(setup: Setup, group: LiteralGroup, groups: JoinGroups, g: nat)
    requires Ready(setup, group, groups) && g < |groups.keys|
    ensures groups.plans[g].WellFormed() && forall l | 0 <= l < |groups.members[g]| :: HasPlace(groups.plans[g], l)
  {
    hide HasPlace, Grouped, Means, Shares, Wanted, InGroup, PredicateEvaluationPlan.WellFormed;
    assert PlanReady(setup, group, groups.keys[g], groups.members[g], groups.atoms[g], groups.plans[g]);
  }

  lemma CountsFit(inputs: Inputs, plan: PredicateEvaluationPlan, t: nat, g: nat, positive: seq<Tally>,
                  negative: seq<Tally>)
    requires GroupCounts(inputs, plan, t, g, positive, negative)
    ensures inputs.Valid() && inputs.Group(t, g) && plan.WellFormed() && |positive| == |negative| == |plan.nodes| + 1
    ensures forall place | 0 <= place <= |plan.nodes| && plan.HasLiteral(place) ::
              PlaceCounted(inputs, plan, t, g, place, positive[place], negative[place])
  {
    hide Inputs.Valid, PlaceCounts;
  }

  lemma AllMembersDone(member: seq<nat>, plan: PredicateEvaluationPlan, done: set<nat>)
    requires forall l | 0 <= l < |member| :: HasPlace(plan, l)
    requires forall p | 0 <= p <= |plan.nodes| && plan.HasLiteral(p) ::
               0 <= plan.LiteralAt(p) < |member| && member[plan.LiteralAt(p)] in done
    ensures forall i | i in member :: i in done
  {
    forall i | i in member
      ensures i in done
    {
      var l :| 0 <= l < |member| && member[l] == i;
      assert HasPlace(plan, l);
      var p: nat :| p <= |plan.nodes| && plan.LiteralAt(p) == l;
      assert plan.HasLiteral(p);
    }
  }

  /** All scores of one predicate's candidates. */
  ghost predicate GroupScored(setup: Setup, bindings: seq<seq<Value>>, run: Run, group: LiteralGroup,
                              positive: seq<Score>, negative: seq<Score>)
  {
    && |positive| == |negative| == |group.candidates|
    && forall i | 0 <= i < |group.candidates| :: ScoredAt(setup, bindings, run, group, i, positive, negative)
  }

  method GatherGroup(setup: Setup, views: seq<TableView>, groups: seq<JoinGroups>, bindings: seq<seq<Value>>, run: Run,
                     t: nat,
                     positive: seq<seq<Tally>>, negative: seq<seq<Tally>>)
    returns (positiveScores: seq<Score>, negativeScores: seq<Score>)
    requires setup.Valid() && AllReady(setup, views, groups) && Table(bindings, setup.numVariables)
    requires |bindings| == setup.numVariables > setup.clauseKey
    requires t < |views| == |groups| == |setup.groups| && |groups[t].keys| == |groups[t].plans| == |groups[t].members|
    requires |positive| == |negative| == |groups[t].plans|
    requires forall g | 0 <= g < |groups[t].plans| ::
               GroupCounts(InputsOf(setup, views, groups, bindings, run), groups[t].plans[g], t, g, positive[g],
                           negative[g])
    ensures GroupScored(setup, bindings, run, setup.groups[t], positiveScores, negativeScores)
  {
    ghost var done: set<nat> := {};
    hide *;
    ReadyAt(setup, views, groups, t);
    var candidates := setup.groups[t].candidates;
    positiveScores := seq(|candidates|, _ => Score(0, 0));
    negativeScores := seq(|candidates|, _ => Score(0, 0));
    NoneScored(setup, bindings, run, setup.groups[t], positiveScores, negativeScores);
    for g := 0 to |groups[t].keys|
      invariant |positiveScores| == |negativeScores| == |candidates|
      invariant DoneScored(setup, bindings, run, setup.groups[t], done, positiveScores, negativeScores)
      invariant forall h, i | 0 <= h < g && i in groups[t].members[h] :: i in done
    {
      positiveScores, negativeScores, done :=
        GatherPlan(setup, views, groups, bindings, run, t, g, positive[g], negative[g], positiveScores, negativeScores,
                   done);
    }
    EveryCandidateIsMember(setup, setup.groups[t], groups[t]);
    AllDone(setup, bindings, run, setup.groups[t], groups[t], done, positiveScores, negativeScores);
  }

  lemma NoneScored(setup: Setup, bindings: seq<seq<Value>>, run: Run, group: LiteralGroup, positive: seq<Score>,
                   negative: seq<Score>)
    requires |positive| == |negative| == |group.candidates|
    ensures DoneScored(setup, bindings, run, group, {}, positive, negative)
  {
  }

  lemma AllDone(setup: Setup, bindings: seq<seq<Value>>, run: Run, group: LiteralGroup, groups: JoinGroups,
                done: set<nat>,
                positive: seq<Score>, negative: seq<Score>)
    requires DoneScored(setup, bindings, run, group, done, positive, negative)
    requires forall h, i | 0 <= h < |groups.members| && i in groups.members[h] :: i in done
    requires forall i | 0 <= i < |group.candidates| :: IsMember(groups.members, i)
    ensures GroupScored(setup, bindings, run, group, positive, negative)
  {
    hide ScoredAt;
    forall i | 0 <= i < |group.candidates|
      ensures i in done
    {
      assert IsMember(groups.members, i);
    }
  }

  ghost predicate IsMember(members: seq<seq<nat>>, i: nat) {
    exists g :: 0 <= g < |members| && i in members[g]
  }

  lemma EveryCandidateIsMember(setup: Setup, group: LiteralGroup, groups: JoinGroups)
    requires Ready(setup, group, groups)
    ensures |groups.members| == |groups.keys|
    ensures forall i | 0 <= i < |group.candidates| :: IsMember(groups.members, i)
  {
    hide PlanReady;
    forall i | 0 <= i < |group.candidates|
      ensures IsMember(groups.members, i)
    {
      var g :| 0 <= g < |groups.keys| && groups.keys[g] == group.candidates[i].joinKey;
      assert InGroup(group.candidates, |group.candidates|, groups.keys[g], groups.members[g]);
    }
  }

  // ---------------------------------------------------------------------
  // Evaluate
  // ---------------------------------------------------------------------

  ghost predicate AllScored(setup: Setup, bindings: seq<seq<Value>>, run: Run, positive: seq<seq<Score>>,
                            negative: seq<seq<Score>>) {
    && |positive| == |negative| == |setup.groups|
    && forall t | 0 <= t < |setup.groups| ::
         GroupScored(setup, bindings, run, setup.groups[t], positive[t], negative[t])
  }

  lemma InputsMeet(setup: Setup, views: seq<TableView>, groups: seq<JoinGroups>, bindings: seq<seq<Value>>, run: Run)
    requires setup.Valid() && AllReady(setup, views, groups) && |bindings| == setup.numVariables > setup.clauseKey
    requires InputsOf(setup, views, groups, bindings, run).Valid()
    ensures SomePair(InputsOf(setup, views, groups, bindings, run)) <==> setup.SomethingMeets(bindings)
  {
    var inputs := InputsOf(setup, views, groups, bindings, run);
    hide AllReady, Setup.Valid, Inputs.Valid, KeyJoin.EqualPairs, Setup.Meets;
    if setup.SomethingMeets(bindings) {
      var t, i :| 0 <= t < |setup.groups| && 0 <= i < |setup.groups[t].candidates|
                  && setup.Meets(setup.groups[t].table.columns, setup.groups[t].candidates[i].joinKey, bindings);
      PairExists(setup, views, groups, bindings, run, t, i);
    }
    if SomePair(inputs) {
      var t, g :| inputs.Group(t, g) && inputs.Keys(t, g).EqualPairs() != {};
      var i := PairMeets(setup, views, groups, bindings, run, t, g);
    }
  }

  lemma PairMeets(setup: Setup, views: seq<TableView>, groups: seq<JoinGroups>, bindings: seq<seq<Value>>, run: Run,
                  t: nat, g: nat)
    returns (i: nat)
    requires setup.Valid() && AllReady(setup, views, groups) && |bindings| == setup.numVariables > setup.clauseKey
    requires InputsOf(setup, views, groups, bindings, run).Valid()
             && InputsOf(setup, views, groups, bindings, run).Group(t, g)
    requires InputsOf(setup, views, groups, bindings, run).Keys(t, g).EqualPairs() != {}
    ensures t < |setup.groups| && i < |setup.groups[t].candidates|
    ensures setup.Meets(setup.groups[t].table.columns, setup.groups[t].candidates[i].joinKey, bindings)
  {
    i := SomeMember(setup, views, groups, t, g);
    hide AllReady, Setup.Valid, Inputs.Valid;
    var inputs := InputsOf(setup, views, groups, bindings, run);
    var key, facts := setup.groups[t].candidates[i].joinKey, setup.groups[t].table.columns;
    assert inputs.Keys(t, g) == KeyJoin(facts[key], bindings[setup.clauseKey], setup.hash, setup.numRadixBits);
    var q :| q in inputs.Keys(t, g).EqualPairs();
    assert q.fact < |facts[key]| && q.binding < |bindings[setup.clauseKey]|
           && facts[key][q.fact] == bindings[setup.clauseKey][q.binding];
  }

  /** A candidate of a join group. */
  lemma SomeMember(setup: Setup, views: seq<TableView>, groups: seq<JoinGroups>, t: nat, g: nat) returns (i: nat)
    requires setup.Valid() && AllReady(setup, views, groups) && t < |groups| && g < |groups[t].keys|
    ensures |views| == |groups| == |setup.groups| && views[t].columns == setup.groups[t].table.columns
    ensures i < |setup.groups[t].candidates|
            && setup.groups[t].candidates[i].joinKey == groups[t].keys[g] < |views[t].columns|
  {
    assert t < |views|;
    ReadyAt(setup, views, groups, t);
    hide AllReady, Setup.Valid, PlanReady, Setup.GroupOk;
    i := groups[t].members[g][0];
    assert i in groups[t].members[g];
  }

  lemma PairExists(setup: Setup, views: seq<TableView>, groups: seq<JoinGroups>, bindings: seq<seq<Value>>, run: Run,
                   t: nat, i: nat)
    requires setup.Valid() && AllReady(setup, views, groups) && |bindings| == setup.numVariables > setup.clauseKey
    requires InputsOf(setup, views, groups, bindings, run).Valid()
    requires t < |setup.groups| && i < |setup.groups[t].candidates|
    requires setup.Meets(setup.groups[t].table.columns, setup.groups[t].candidates[i].joinKey, bindings)
    ensures SomePair(InputsOf(setup, views, groups, bindings, run))
  {
    var g := KeyPlace(setup, views, groups, t, i);
    hide AllReady, Setup.Valid, Inputs.Valid;
    var inputs := InputsOf(setup, views, groups, bindings, run);
    var key, facts := setup.groups[t].candidates[i].joinKey, setup.groups[t].table.columns;
    var f, b :| 0 <= f < |facts[key]| && 0 <= b < |bindings[setup.clauseKey]|
    && facts[key][f] == bindings[setup.clauseKey][b];
    assert inputs.Group(t, g);
    assert inputs.Keys(t, g) == KeyJoin(facts[key], bindings[setup.clauseKey], setup.hash, setup.numRadixBits);
    assert Pair(f, b) in inputs.Keys(t, g).EqualPairs();
  }

  /** The join group of a candidate. */
  lemma KeyPlace(setup: Setup, views: seq<TableView>, groups: seq<JoinGroups>, t: nat, i: nat) returns (g: nat)
    requires setup.Valid() && AllReady(setup, views, groups) && t < |setup.groups| && i < |setup.groups[t].candidates|
    ensures |views| == |groups| == |setup.groups| && views[t].columns == setup.groups[t].table.columns
    ensures g < |groups[t].keys| && groups[t].keys[g] == setup.groups[t].candidates[i].joinKey < |views[t].columns|
  {
    assert t < |views|;
    ReadyAt(setup, views, groups, t);
    hide AllReady, Setup.Valid, PlanReady, InGroup, Setup.GroupOk;
    g :| 0 <= g < |groups[t].keys| && groups[t].keys[g] == setup.groups[t].candidates[i].joinKey;
  }

  lemma PlansAreFit(setup: Setup, views: seq<TableView>, groups: seq<JoinGroups>, bindings: seq<seq<Value>>, run: Run)
    requires setup.Valid() && AllReady(setup, views, groups) && setup.clauseKey < |bindings|
    ensures PlansFit(InputsOf(setup, views, groups, bindings, run),
                     seq(|groups|, t requires 0 <= t < |groups| => groups[t].plans))
  {
    var inputs := InputsOf(setup, views, groups, bindings, run);
    assert |views| == |groups|;
    hide AllReady, Setup.Valid, PlanFits;
    forall t | 0 <= t < |groups|
      ensures |groups[t].plans| == |groups[t].keys| == |groups[t].atoms|
      ensures forall g | 0 <= g < |groups[t].plans| :: PlanFits(groups[t].plans[g], groups[t].atoms[g])
    {
      ReadyAt(setup, views, groups, t);
      hide Setup.GroupOk, ViewReady;
      PlansOfGroupFit(setup, setup.groups[t], groups[t]);
    }
  }

  lemma PlansOfGroupFit(setup: Setup, group: LiteralGroup, groups: JoinGroups)
    requires Ready(setup, group, groups)
    ensures |groups.plans| == |groups.keys| == |groups.atoms|
    ensures forall g | 0 <= g < |groups.plans| :: PlanFits(groups.plans[g], groups.atoms[g])
  {
    hide Grouped, InGroup, HasPlace, Means, Shares, Wanted;
    forall g | 0 <= g < |groups.plans|
      ensures PlanFits(groups.plans[g], groups.atoms[g])
    {
      assert PlanReady(setup, group, groups.keys[g], groups.members[g], groups.atoms[g], groups.plans[g]);
    }
  }

  /** One run of the operators over one binding table. */
  method CountBindings(setup: Setup, views: seq<TableView>, groups: seq<JoinGroups>, bindings: seq<seq<Value>>,
                       run: Run)
    returns (started: bool, positive: seq<seq<Score>>, negative: seq<seq<Score>>)
    requires setup.Valid() && AllReady(setup, views, groups) && Table(bindings, setup.numVariables)
    ensures started <==> setup.SomethingMeets(bindings)
    ensures started ==> AllScored(setup, bindings, run, positive, negative)
  {
    hide *;
    InputsAreValid(setup, views, groups, bindings, run);
    SetupFits(setup, views, groups, bindings);
    ColumnIsSmall(setup, bindings);
    var inputs := InputsOf(setup, views, groups, bindings, run);
    InputsMeet(setup, views, groups, bindings, run);
    PlansAreFit(setup, views, groups, bindings, run);
    InputsKeepBits(setup, views, groups, bindings, run);
    var plans := seq(|groups|, t requires 0 <= t < |groups| => groups[t].plans);
    var positiveTallies, negativeTallies;
    started, positiveTallies, negativeTallies := CountLiterals(inputs, plans);
    positive, negative := [], [];
    if started {
      positive, negative := GatherAll(setup, views, groups, bindings, run, plans, positiveTallies, negativeTallies);
    }
  }

  lemma ColumnIsSmall(setup: Setup, bindings: seq<seq<Value>>)
    requires Table(bindings, setup.numVariables) && setup.clauseKey < |bindings|
    ensures |bindings[setup.clauseKey]| <= Pow2(30)
  {
    assert bindings[setup.clauseKey] in bindings;
  }

  lemma InputsKeepBits(setup: Setup, views: seq<TableView>, groups: seq<JoinGroups>, bindings: seq<seq<Value>>,
                       run: Run)
    requires setup.clauseKey < |bindings|
    ensures var inputs := InputsOf(setup, views, groups, bindings, run);
            inputs.bindings == Job(bindings[setup.clauseKey], setup.hash, setup.numRadixBits)
  {
  }

  method GatherAll(setup: Setup, views: seq<TableView>, groups: seq<JoinGroups>, bindings: seq<seq<Value>>, run: Run,
                   plans: seq<seq<PredicateEvaluationPlan>>, positive: seq<seq<seq<Tally>>>,
                       negative: seq<seq<seq<Tally>>>)
    returns (positiveScores: seq<seq<Score>>, negativeScores: seq<seq<Score>>)
    requires setup.Valid() && AllReady(setup, views, groups) && Table(bindings, setup.numVariables)
    requires |bindings| == setup.numVariables > setup.clauseKey
    requires |views| == |groups| == |setup.groups| == |plans| && forall t | 0 <= t < |groups| ::
               plans[t] == groups[t].plans
    requires AllCounts(InputsOf(setup, views, groups, bindings, run), plans, positive, negative)
    ensures AllScored(setup, bindings, run, positiveScores, negativeScores)
  {
    hide *;
    positiveScores, negativeScores := [], [];
    NoGroupScored(setup, bindings, run);
    for t := 0 to |groups|
      invariant ScoredUpTo(setup, bindings, run, t, positiveScores, negativeScores)
    {
      ReadyAt(setup, views, groups, t);
      PlansCount(setup, setup.groups[t], groups[t]);
      CountsAt(InputsOf(setup, views, groups, bindings, run), plans, positive, negative, t);
      var p, n := GatherGroup(setup, views, groups, bindings, run, t, positive[t], negative[t]);
      OneMoreGroup(setup, bindings, run, t, positiveScores, negativeScores, p, n);
      positiveScores, negativeScores := positiveScores + [p], negativeScores + [n];
    }
    EveryGroupScored(setup, bindings, run, positiveScores, negativeScores);
  }

  /** The first n predicates have been scored. */
  ghost predicate ScoredUpTo(setup: Setup, bindings: seq<seq<Value>>, run: Run, n: nat, positive: seq<seq<Score>>,
                             negative: seq<seq<Score>>)
  {
    && |positive| == |negative| == n <= |setup.groups|
    && forall k | 0 <= k < n :: GroupScored(setup, bindings, run, setup.groups[k], positive[k], negative[k])
  }

  lemma NoGroupScored(setup: Setup, bindings: seq<seq<Value>>, run: Run)
    ensures ScoredUpTo(setup, bindings, run, 0, [], [])
  {
  }

  lemma OneMoreGroup(setup: Setup, bindings: seq<seq<Value>>, run: Run, n: nat, positive: seq<seq<Score>>,
                     negative: seq<seq<Score>>, p: seq<Score>, q: seq<Score>)
    requires ScoredUpTo(setup, bindings, run, n, positive, negative) && n < |setup.groups|
    requires GroupScored(setup, bindings, run, setup.groups[n], p, q)
    ensures ScoredUpTo(setup, bindings, run, n + 1, positive + [p], negative + [q])
  {
    hide GroupScored;
  }

  lemma EveryGroupScored(setup: Setup, bindings: seq<seq<Value>>, run: Run, positive: seq<seq<Score>>,
                         negative: seq<seq<Score>>)
    requires ScoredUpTo(setup, bindings, run, |setup.groups|, positive, negative)
    ensures AllScored(setup, bindings, run, positive, negative)
  {
    hide GroupScored;
  }

  lemma CountsAt(inputs: Inputs, plans: seq<seq<PredicateEvaluationPlan>>, positive: seq<seq<seq<Tally>>>,
                 negative: seq<seq<seq<Tally>>>, t: nat)
    requires AllCounts(inputs, plans, positive, negative) && t < |plans|
    ensures |positive| == |negative| == |plans| && |positive[t]| == |negative[t]| == |plans[t]|
    ensures forall g | 0 <= g < |plans[t]| :: GroupCounts(inputs, plans[t][g], t, g, positive[t][g], negative[t][g])
  {
    hide GroupCounts;
  }

  lemma PlansCount(setup: Setup, group: LiteralGroup, groups: JoinGroups)
    requires Ready(setup, group, groups)
    ensures |groups.keys| == |groups.plans| == |groups.members|
  {
    hide PlanReady, Grouped;
  }

  // ---------------------------------------------------------------------
  // Labels: one pass or two
  // ---------------------------------------------------------------------

  /** The sizes of the two parts of a consecutive table. */
  lemma PartSizes(data: BindingData, numVariables: nat)
    requires data.Consecutive? && data.Valid(numVariables)
    ensures |data.Positive()| == |data.Negative()| == |data.columns| == numVariables
    ensures forall i | 0 <= i < numVariables ::
              data.numPositive <= |data.columns[i]| && |data.Positive()[i]| == data.numPositive
              && |data.Negative()[i]| == |data.columns[i]| - data.numPositive
    ensures forall i, j | 0 <= i < numVariables && 0 <= j < numVariables ::
              |data.columns[i]| == |data.columns[j]| <= Pow2(30)
  {
    hide Pow2;
    assert forall i | 0 <= i < |data.columns| :: data.columns[i] in data.columns;
  }

  lemma TableByIndex(columns: seq<seq<Value>>, n: nat)
    requires forall i | 0 <= i < |columns| :: |columns[i]| == n <= Pow2(30)
    ensures Table(columns, |columns|)
  {
  }

  lemma ValidParts(data: BindingData, numVariables: nat)
    requires data.Valid(numVariables)
    ensures Table(data.Positive(), numVariables) && Table(data.Negative(), numVariables)
  {
    if data.Consecutive? && numVariables > 0 {
      PartSizes(data, numVariables);
      hide BindingData.Positive, BindingData.Negative, BindingData.Valid;
      TableByIndex(data.Positive(), data.numPositive);
      TableByIndex(data.Negative(), |data.columns[0]| - data.numPositive);
    }
  }

  /** Rows of a consecutive table below the number of positives are the rows of
      the positive part, the others those of the negative part, moved up. */
  lemma WitnessesByLabel(data: BindingData, numVariables: nat, facts: seq<seq<Value>>, vars: Variables)
    requires data.Consecutive? && data.Valid(numVariables) && numVariables > 0
    ensures PositiveOnes(Both(data.numPositive), Witnesses(facts, data.columns, vars))
            == Witnesses(facts, data.Positive(), vars)
    ensures NegativeOnes(Both(data.numPositive), Witnesses(facts, data.columns, vars))
            == MovedUp(Witnesses(facts, data.Negative(), vars), data.numPositive)
  {
    var n := data.numPositive;
    var all, ps, ns := Witnesses(facts, data.columns, vars), Witnesses(facts, data.Positive(), vars),
        Witnesses(facts, data.Negative(), vars);
    hide *;
    forall f: nat, b: nat
      ensures ByLabel(all, ps, ns, n, f, b)
    {
      WitnessByLabel(data, numVariables, facts, vars, f, b);
    }
    SplitSet(all, ps, ns, n);
  }

  lemma PartRows(data: BindingData, numVariables: nat)
    requires data.Consecutive? && data.Valid(numVariables) && numVariables > 0
    ensures Rows(data.Positive()) == data.numPositive <= Rows(data.columns)
    ensures Rows(data.Negative()) == Rows(data.columns) - data.numPositive
    ensures forall i | 0 <= i < |data.columns| :: data.numPositive <= |data.columns[i]|
  {
    PartSizes(data, numVariables);
  }

  /** Row b of the parts against the whole. */
  ghost predicate ByLabel(all: set<Pair>, ps: set<Pair>, ns: set<Pair>, n: nat, f: nat, b: nat) {
    && (Pair(f, b) in ps <==> Pair(f, b) in all && b < n)
    && (Pair(f, b) in ns <==> Pair(f, b + n) in all)
  }

  lemma WitnessByLabel(data: BindingData, numVariables: nat, facts: seq<seq<Value>>, vars: Variables, f: nat, b: nat)
    requires data.Consecutive? && data.Valid(numVariables) && numVariables > 0
    ensures ByLabel(Witnesses(facts, data.columns, vars), Witnesses(facts, data.Positive(), vars),
                    Witnesses(facts, data.Negative(), vars), data.numPositive, f, b)
  {
    hide *;
    PartRows(data, numVariables);
    AgreeByLabel(data, facts, vars, f, b);
    IsWitness(facts, data.columns, vars, f, b);
    IsWitness(facts, data.columns, vars, f, b + data.numPositive);
    IsWitness(facts, data.Positive(), vars, f, b);
    IsWitness(facts, data.Negative(), vars, f, b);
    ByLabelFrom(Witnesses(facts, data.columns, vars), Witnesses(facts, data.Positive(), vars),
                Witnesses(facts, data.Negative(), vars), data.numPositive, f, b);
  }

  lemma ByLabelFrom(all: set<Pair>, ps: set<Pair>, ns: set<Pair>, n: nat, f: nat, b: nat)
    requires Pair(f, b) in ps <==> Pair(f, b) in all && b < n
    requires Pair(f, b) in ns <==> Pair(f, b + n) in all
    ensures ByLabel(all, ps, ns, n, f, b)
  {
  }

  lemma IsWitness(facts: seq<seq<Value>>, bindings: seq<seq<Value>>, vars: Variables, f: nat, b: nat)
    ensures Pair(f, b) in Witnesses(facts, bindings, vars)
            <==> f < Rows(facts) && b < Rows(bindings) && Agrees(facts, bindings, vars, f, b)
  {
    hide Agrees;
  }

  lemma SplitSet(all: set<Pair>, ps: set<Pair>, ns: set<Pair>, n: nat)
    requires forall f: nat, b: nat :: ByLabel(all, ps, ns, n, f, b)
    ensures PositiveOnes(Both(n), all) == ps && NegativeOnes(Both(n), all) == MovedUp(ns, n)
  {
    forall q
      ensures q in PositiveOnes(Both(n), all) <==> q in ps
    {
      assert q == Pair(q.fact, q.binding) && ByLabel(all, ps, ns, n, q.fact, q.binding);
    }
    forall q
      ensures q in NegativeOnes(Both(n), all) <==> q in MovedUp(ns, n)
    {
      if q in NegativeOnes(Both(n), all) {
        var r := Pair(q.fact, q.binding - n);
        assert ByLabel(all, ps, ns, n, r.fact, r.binding);
        assert r in ns && q == Pair(r.fact, r.binding + n);
      }
      if q in MovedUp(ns, n) {
        var r :| r in ns && q == Pair(r.fact, r.binding + n);
        assert r == Pair(r.fact, r.binding) && ByLabel(all, ps, ns, n, r.fact, r.binding);
      }
    }
  }

  lemma RowByLabel(data: BindingData, facts: seq<seq<Value>>, v: nat, w: nat, f: nat, b: nat)
    requires data.Consecutive? && forall i | 0 <= i < |data.columns| :: data.numPositive <= |data.columns[i]|
    ensures b < data.numPositive
            ==> (AgreesAt(facts, data.Positive(), v, w, f, b) <==> AgreesAt(facts, data.columns, v, w, f, b))
    ensures AgreesAt(facts, data.Negative(), v, w, f, b)
            <==> AgreesAt(facts, data.columns, v, w, f, b + data.numPositive)
  {
  }

  lemma AgreeByLabel(data: BindingData, facts: seq<seq<Value>>, vars: Variables, f: nat, b: nat)
    requires data.Consecutive? && forall i | 0 <= i < |data.columns| :: data.numPositive <= |data.columns[i]|
    ensures b < data.numPositive
            ==> (Agrees(facts, data.Positive(), vars, f, b) <==> Agrees(facts, data.columns, vars, f, b))
    ensures Agrees(facts, data.Negative(), vars, f, b) <==> Agrees(facts, data.columns, vars, f, b + data.numPositive)
  {
    hide AgreesAt, BindingData.Positive, BindingData.Negative;
    forall v | 0 <= v < |vars| && vars[v] >= 0
      ensures b < data.numPositive ==>
                (AgreesAt(facts, data.Positive(), v, vars[v], f, b)
                 <==> AgreesAt(facts, data.columns, v, vars[v], f, b))
      ensures AgreesAt(facts, data.Negative(), v, vars[v], f, b)
              <==> AgreesAt(facts, data.columns, v, vars[v], f, b + data.numPositive)
    {
      RowByLabel(data, facts, v, vars[v], f, b);
    }
  }

  ghost function MovedUp(ws: set<Pair>, n: nat): (r: set<Pair>) {
    set q | q in ws :: Pair(q.fact, q.binding + n)
  }

  /** Moving the binding rows up changes no count. */
  lemma ShiftedScore(s: Score, ws: set<Pair>, n: nat)
    requires ScoreIs(s, MovedUp(ws, n))
    ensures ScoreIs(s, ws)
  {
    MovedUpCard(ws, n);
    MovedUpBindings(ws, n);
  }

  lemma MovedUpCard(ws: set<Pair>, n: nat)
    ensures |MovedUp(ws, n)| == |ws|
  {
    var up := (q: Pair) => Pair(q.fact, q.binding + n);
    InjectiveImageCard(ws, up);
    assert MovedUp(ws, n) == ImageOf(ws, up);
  }

  lemma MovedUpBindings(ws: set<Pair>, n: nat)
    ensures |set q | q in MovedUp(ws, n) :: q.binding| == |set q | q in ws :: q.binding|
  {
    var up := (b: nat) => b + n;
    var before, after := set q | q in ws :: q.binding, set q | q in MovedUp(ws, n) :: q.binding;
    InjectiveImageCard(before, up);
    BindingsMoveUp(ws, n, before, after);
    assert after == ImageOf(before, up);
  }

  lemma BindingsMoveUp(ws: set<Pair>, n: nat, before: set<nat>, after: set<nat>)
    requires before == (set q | q in ws :: q.binding) && after == set q | q in MovedUp(ws, n) :: q.binding
    ensures forall c :: c in after <==> c - n in before
  {
    forall b | b in before
      ensures b + n in after
    {
      var q :| q in ws && q.binding == b;
      assert Pair(q.fact, q.binding + n) in MovedUp(ws, n);
    }
  }

  /** Both labels have the naive counts over their own bindings. */
  ghost predicate LiteralScored(group: LiteralGroup, data: BindingData, c: Candidate, positive: Score,
                                negative: Score) {
    && ScoreIs(positive, Witnesses(group.table.columns, data.Positive(), c.variables))
    && ScoreIs(negative, Witnesses(group.table.columns, data.Negative(), c.variables))
  }

  /** The labelled pass over one table scores like two passes over its parts. */
  lemma OnePassIsTwoPasses(setup: Setup, data: BindingData, group: LiteralGroup, c: Candidate, positive: Score,
                           negative: Score)
    requires data.Consecutive? && data.Valid(setup.numVariables) && setup.numVariables > 0
    ensures Scored(setup, data.columns, Both(data.numPositive), group, c, positive, negative)
            ==> Scored(setup, data.Positive(), OnlyPositive, group, c, positive, negative)
                && Scored(setup, data.Negative(), OnlyNegative, group, c, positive, negative)
    ensures Scored(setup, data.columns, Both(data.numPositive), group, c, positive, negative)
            ==> LiteralScored(group, data, c, positive, negative)
  {
    if Scored(setup, data.columns, Both(data.numPositive), group, c, positive, negative) {
      WitnessesByLabel(data, setup.numVariables, group.table.columns, c.variables);
      ShiftedScore(negative, Witnesses(group.table.columns, data.Negative(), c.variables), data.numPositive);
      OneLabel(group.table.columns, data.Positive(), c.variables);
      OneLabel(group.table.columns, data.Negative(), c.variables);
    }
  }

  lemma OneLabel(facts: seq<seq<Value>>, bindings: seq<seq<Value>>, vars: Variables)
    ensures PositiveOnes(OnlyPositive, Witnesses(facts, bindings, vars)) == Witnesses(facts, bindings, vars)
    ensures NegativeOnes(OnlyNegative, Witnesses(facts, bindings, vars)) == Witnesses(facts, bindings, vars)
  {
  }

  ghost predicate Evaluated(setup: Setup, data: BindingData, positive: seq<seq<Score>>, negative: seq<seq<Score>>) {
    && |positive| == |negative| == |setup.groups|
    && forall t | 0 <= t < |setup.groups| ::
         && |positive[t]| == |negative[t]| == |setup.groups[t].candidates|
         && forall i | 0 <= i < |positive[t]| ::
              LiteralScored(setup.groups[t], data, setup.groups[t].candidates[i], positive[t][i], negative[t][i])
  }

  lemma EvaluatedTogether(setup: Setup, data: BindingData, positive: seq<seq<Score>>, negative: seq<seq<Score>>)
    requires data.Consecutive? && data.Valid(setup.numVariables) && setup.numVariables > 0
    requires AllScored(setup, data.columns, Both(data.numPositive), positive, negative)
    ensures Evaluated(setup, data, positive, negative)
  {
    hide Scored, LiteralScored, BindingData.Valid;
    forall t | 0 <= t < |setup.groups|
      ensures |positive[t]| == |negative[t]| == |setup.groups[t].candidates|
      ensures forall i | 0 <= i < |positive[t]| ::
                LiteralScored(setup.groups[t], data, setup.groups[t].candidates[i], positive[t][i], negative[t][i])
    {
      var group := setup.groups[t];
      assert GroupScored(setup, data.columns, Both(data.numPositive), group, positive[t], negative[t]);
      forall i | 0 <= i < |positive[t]|
        ensures LiteralScored(group, data, group.candidates[i], positive[t][i], negative[t][i])
      {
        assert ScoredAt(setup, data.columns, Both(data.numPositive), group, i, positive[t], negative[t]);
        OnePassIsTwoPasses(setup, data, group, group.candidates[i], positive[t][i], negative[t][i]);
      }
    }
  }

  lemma EvaluatedApart(setup: Setup, data: BindingData, positive: seq<seq<Score>>, other: seq<seq<Score>>,
                       other': seq<seq<Score>>, negative: seq<seq<Score>>)
    requires AllScored(setup, data.Positive(), OnlyPositive, positive, other)
    requires AllScored(setup, data.Negative(), OnlyNegative, other', negative)
    ensures Evaluated(setup, data, positive, negative)
  {
    hide Scored, LiteralScored, BindingData.Positive, BindingData.Negative;
    forall t | 0 <= t < |setup.groups|
      ensures |positive[t]| == |negative[t]| == |setup.groups[t].candidates|
      ensures forall i | 0 <= i < |positive[t]| ::
                LiteralScored(setup.groups[t], data, setup.groups[t].candidates[i], positive[t][i], negative[t][i])
    {
      var group := setup.groups[t];
      assert GroupScored(setup, data.Positive(), OnlyPositive, group, positive[t], other[t]);
      assert GroupScored(setup, data.Negative(), OnlyNegative, group, other'[t], negative[t]);
      forall i | 0 <= i < |positive[t]|
        ensures LiteralScored(group, data, group.candidates[i], positive[t][i], negative[t][i])
      {
        assert ScoredAt(setup, data.Positive(), OnlyPositive, group, i, positive[t], other[t]);
        assert ScoredAt(setup, data.Negative(), OnlyNegative, group, i, other'[t], negative[t]);
        BothLabels(setup, data, group, group.candidates[i], positive[t][i], other[t][i], other'[t][i], negative[t][i]);
      }
    }
  }

  lemma BothLabels(setup: Setup, data: BindingData, group: LiteralGroup, c: Candidate, p: Score, x: Score, y: Score,
                   n: Score)
    requires Scored(setup, data.Positive(), OnlyPositive, group, c, p, x)
             && Scored(setup, data.Negative(), OnlyNegative, group, c, y, n)
    ensures LiteralScored(group, data, c, p, n)
  {
    OneLabel(group.table.columns, data.Positive(), c.variables);
    OneLabel(group.table.columns, data.Negative(), c.variables);
  }

  /** Every run of the operators has a first joined chunk. */
  ghost predicate EveryPassMeets(setup: Setup, data: BindingData) {
    if data.Consecutive? then setup.SomethingMeets(data.columns)
    else setup.SomethingMeets(data.positiveColumns) && setup.SomethingMeets(data.negativeColumns)
  }

  /** The scores of all candidate literals; or plan generation does not return; or
      a run of the operators takes a first chunk that is not there. */
  datatype Outcome = Scores(positive: seq<seq<Score>>, negative: seq<seq<Score>>) | PlansDoNotEnd | NoFirstChunk

  method Evaluate(setup: Setup, data: BindingData, order: Order) returns (r: Outcome)
    requires setup.Valid() && data.Valid(setup.numVariables) && Enumerates(order)
    ensures r.PlansDoNotEnd? <==>
              exists t, c :: 0 <= t < |setup.groups| && c in setup.groups[t].candidates
                             && !GroupFinishes(SameKey(setup.groups[t].candidates, c.joinKey), c.joinKey, order)
    ensures !r.PlansDoNotEnd? ==>
              (r.Scores? <==>
                 forall bindings | bindings in Passes(data) :: exists x, t, c :: SharesValue(setup, t, c, bindings, x))
    ensures !r.PlansDoNotEnd? && (forall bindings | bindings in Passes(data) :: SomeWitness(setup, bindings))
            ==> r.Scores?
    ensures r.Scores? ==> Evaluated(setup, data, r.positive, r.negative)
  {
    hide *;
    r := EvaluateAll(setup, data, order);
    PlansFinishMeans(setup, order);
    PassesMeet(setup, data);
    WitnessesStart(setup, data);
  }

  /** The candidate's key column and the clause's have a value in common. */
  ghost predicate SharesValue(setup: Setup, t: int, c: Candidate, bindings: seq<seq<Value>>, x: Value) {
    && 0 <= t < |setup.groups| && c in setup.groups[t].candidates
    && c.joinKey < |setup.groups[t].table.columns| && setup.clauseKey < |bindings|
    && x in setup.groups[t].table.columns[c.joinKey] && x in bindings[setup.clauseKey]
  }

  /** The variables of the candidates with this key. */
  ghost function SameKey(candidates: seq<Candidate>, key: nat): (vs: seq<Variables>) {
    VariablesOf(candidates, MembersWith(candidates, |candidates|, key))
  }

  lemma PlansFinishMeans(setup: Setup, order: Order)
    ensures PlansFinish(setup, order) <==>
              !exists t, c :: 0 <= t < |setup.groups| && c in setup.groups[t].candidates
                              && !GroupFinishes(SameKey(setup.groups[t].candidates, c.joinKey), c.joinKey, order)
  {
    hide GroupFinishes, MembersWith;
  }

  /** The binding tables that the operators run over, one after the other. */
  function Passes(data: BindingData): (passes: seq<seq<seq<Value>>>) {
    match data
    case Consecutive(columns, _) => [columns]
    case Separate(positiveColumns, negativeColumns) => [positiveColumns, negativeColumns]
  }

  lemma PassesMeet(setup: Setup, data: BindingData)
    ensures EveryPassMeets(setup, data) <==>
              forall bindings | bindings in Passes(data) :: exists x, t, c :: SharesValue(setup, t, c, bindings, x)
  {
    hide Setup.SomethingMeets, SharesValue;
    forall bindings | bindings in Passes(data)
      ensures setup.SomethingMeets(bindings) <==> exists x, t, c :: SharesValue(setup, t, c, bindings, x)
    {
      MeetingShares(setup, bindings);
    }
    assert data.Consecutive? ==> data.columns in Passes(data);
    assert data.Separate? ==> data.positiveColumns in Passes(data) && Passes(data)[1] in Passes(data);
  }

  lemma MeetingShares(setup: Setup, bindings: seq<seq<Value>>)
    ensures setup.SomethingMeets(bindings) <==> exists x, t, c :: SharesValue(setup, t, c, bindings, x)
  {
    if setup.SomethingMeets(bindings) {
      var t, i :| 0 <= t < |setup.groups| && 0 <= i < |setup.groups[t].candidates|
                  && setup.Meets(setup.groups[t].table.columns, setup.groups[t].candidates[i].joinKey, bindings);
      var c, facts := setup.groups[t].candidates[i], setup.groups[t].table.columns;
      var f, b :| 0 <= f < |facts[c.joinKey]| && 0 <= b < |bindings[setup.clauseKey]|
                  && facts[c.joinKey][f] == bindings[setup.clauseKey][b];
      assert SharesValue(setup, t, c, bindings, facts[c.joinKey][f]);
    }
    if x, t, c :| SharesValue(setup, t, c, bindings, x) {
      var i :| 0 <= i < |setup.groups[t].candidates| && setup.groups[t].candidates[i] == c;
      var facts := setup.groups[t].table.columns;
      var f :| 0 <= f < |facts[c.joinKey]| && facts[c.joinKey][f] == x;
      var b :| 0 <= b < |bindings[setup.clauseKey]| && bindings[setup.clauseKey][b] == x;
      assert setup.Meets(facts, setup.groups[t].candidates[i].joinKey, bindings);
    }
  }

  /** The scores of all candidates, spelled out. */
  lemma ScoresMean(setup: Setup, data: BindingData, positive: seq<seq<Score>>, negative: seq<seq<Score>>)
    requires Evaluated(setup, data, positive, negative)
    ensures |positive| == |negative| == |setup.groups|
    ensures forall t | 0 <= t < |setup.groups| :: |positive[t]| == |negative[t]| == |setup.groups[t].candidates|
    ensures forall t, i | 0 <= t < |setup.groups| && 0 <= i < |setup.groups[t].candidates| ::
              var facts, vars := setup.groups[t].table.columns, setup.groups[t].candidates[i].variables;
              && positive[t][i].numBinding == |Witnesses(facts, data.Positive(), vars)|
              && positive[t][i].numCovered == |set q | q in Witnesses(facts, data.Positive(), vars) :: q.binding|
              && negative[t][i].numBinding == |Witnesses(facts, data.Negative(), vars)|
              && negative[t][i].numCovered == |set q | q in Witnesses(facts, data.Negative(), vars) :: q.binding|
  {
    hide Witnesses, BindingData.Positive, BindingData.Negative;
    forall t, i | 0 <= t < |setup.groups| && 0 <= i < |setup.groups[t].candidates|
      ensures LiteralScored(setup.groups[t], data, setup.groups[t].candidates[i], positive[t][i], negative[t][i])
    {
    }
  }

  ghost predicate SomeWitness(setup: Setup, bindings: seq<seq<Value>>) {
    exists t, c :: 0 <= t < |setup.groups| && c in setup.groups[t].candidates
                   && Witnesses(setup.groups[t].table.columns, bindings, c.variables) != {}
  }

  /** A candidate with a witness among the bindings makes their pass start. */
  lemma WitnessStarts(setup: Setup, bindings: seq<seq<Value>>)
    requires setup.Valid() && SomeWitness(setup, bindings)
    ensures exists x, t, c :: SharesValue(setup, t, c, bindings, x)
  {
    var t, c :| 0 <= t < |setup.groups| && c in setup.groups[t].candidates
                && Witnesses(setup.groups[t].table.columns, bindings, c.variables) != {};
    assert setup.GroupOk(setup.groups[t]) && setup.CandidateOk(c, |setup.groups[t].table.columns|);
    hide Setup.Valid, Setup.GroupOk;
    var x := WitnessShares(setup.groups[t].table.columns, bindings, c);
    assert SharesValue(setup, t, c, bindings, x);
  }

  lemma WitnessShares(facts: seq<seq<Value>>, bindings: seq<seq<Value>>, c: Candidate) returns (x: Value)
    requires c.joinKey < |c.variables| && c.variables[c.joinKey] >= 0 && Witnesses(facts, bindings, c.variables) != {}
    ensures c.joinKey < |facts| && c.variables[c.joinKey] < |bindings|
    ensures x in facts[c.joinKey] && x in bindings[c.variables[c.joinKey]]
  {
    var q :| q in Witnesses(facts, bindings, c.variables);
    assert AgreesAt(facts, bindings, c.joinKey, c.variables[c.joinKey], q.fact, q.binding);
    x := facts[c.joinKey][q.fact];
  }

  lemma WitnessesStart(setup: Setup, data: BindingData)
    requires setup.Valid()
    ensures forall bindings | bindings in Passes(data) && SomeWitness(setup, bindings) ::
              exists x, t, c :: SharesValue(setup, t, c, bindings, x)
  {
    hide *;
    forall bindings | bindings in Passes(data) && SomeWitness(setup, bindings)
      ensures exists x, t, c :: SharesValue(setup, t, c, bindings, x)
    {
      WitnessStarts(setup, bindings);
    }
  }

  method EvaluateAll(setup: Setup, data: BindingData, order: Order) returns (r: Outcome)
    requires setup.Valid() && data.Valid(setup.numVariables) && Enumerates(order)
    ensures r.Scores? ==> Evaluated(setup, data, r.positive, r.negative)
    ensures r.PlansDoNotEnd? <==> !PlansFinish(setup, order)
    ensures r.NoFirstChunk? <==> PlansFinish(setup, order) && !EveryPassMeets(setup, data)
  {
    hide Setup.Valid, AllReady, AllScored, Evaluated, PlansFinish, Setup.SomethingMeets, Enumerates;
    var done, views, groups := PrepareGroups(setup, order);
    if !done {
      return PlansDoNotEnd;
    }
    SomeVariables(setup);
    ValidParts(data, setup.numVariables);
    match data
    case Consecutive(columns, numPositive) =>
      var started, positive, negative := CountBindings(setup, views, groups, columns, Both(numPositive));
      if !started {
        return NoFirstChunk;
      }
      EvaluatedTogether(setup, data, positive, negative);
      return Scores(positive, negative);
    case Separate(positiveColumns, negativeColumns) =>
      var started, positive, unused := CountBindings(setup, views, groups, positiveColumns, OnlyPositive);
      if !started {
        return NoFirstChunk;
      }
      var startedToo, alsoUnused, negative := CountBindings(setup, views, groups, negativeColumns, OnlyNegative);
      if !startedToo {
        return NoFirstChunk;
      }
      EvaluatedApart(setup, data, positive, unused, alsoUnused, negative);
      return Scores(positive, negative);
  }

  lemma SomeVariables(setup: Setup)
    requires setup.Valid()
    ensures setup.numVariables > 0
  {
  }
}
