/** The last two loops of GeneratePredicateEvaluationPlan: nodes that serve no
    literal are dropped by reference count, and the others become the plan
    (learner/CandidateLiteralEvaluator.cpp). */
module PlanPruning {
  import opened Collections
  import opened EvaluationPlan
  import opened Bindings
  import opened PlanAtoms
  import opened PlanGenerator
  import opened PlanLoop

  /** The node carries a literal or is below one that does. */
  ghost predicate Needed(prob: Problem, s: State, i: nat)
    decreases |s.nodes| - i
  {
    && i < |s.nodes|
    && (s.nodes[i].literal >= 0 || exists k :: k in Parents(prob, s, i) && i < k && Needed(prob, s, k))
  }

  /** The parents of i without the dropped ones among the nodes from bound on. */
  ghost function ParentsLeft(prob: Problem, s: State, i: nat, bound: nat): (ps: set<nat>) {
    set k | k in Parents(prob, s, i) && (k < bound || Needed(prob, s, k))
  }

  ghost predicate CountsParentsLeft(prob: Problem, s: State, counts: seq<nat>, bound: nat) {
    && |counts| == |s.nodes|
    && forall i | 0 <= i < |counts| :: counts[i] == |ParentsLeft(prob, s, i, bound)|
  }

  /** Children precede their parents. */
  ghost predicate Ordered(prob: Problem, s: State) {
    && prob.numAtoms <= |s.nodes|
    && (forall k | prob.numAtoms <= k < |s.nodes| ::
          0 <= s.nodes[k].left < k && 0 <= s.nodes[k].right < k && s.nodes[k].left != s.nodes[k].right)
    && forall i | 0 <= i < |s.nodes| :: s.nodes[i].literal >= -1
  }

  lemma InvIsOrdered(prob: Problem, s: State)
    requires Inv(prob, s) && References(prob, s)
    ensures Ordered(prob, s)
  {
    assert prob.numAtoms <= |s.nodes| && forall k | prob.numAtoms <= k < |s.nodes| ::
             s.nodes[k].left != s.nodes[k].right;
    hide References;
    forall k | 0 <= k < |s.nodes|
      ensures k >= prob.numAtoms ==> 0 <= s.nodes[k].left < k && 0 <= s.nodes[k].right < k
      ensures s.nodes[k].literal >= -1
    {
      NodeIsOrdered(prob, s, k);
    }
  }

  lemma NodeIsOrdered(prob: Problem, s: State, k: nat)
    requires Inv(prob, s) && k < |s.nodes|
    ensures k >= prob.numAtoms ==> 0 <= s.nodes[k].left < k && 0 <= s.nodes[k].right < k
    ensures s.nodes[k].literal >= -1
  {
    assert NodeOk(prob, s, k);
  }

  lemma DecidedByCount(prob: Problem, s: State, counts: seq<nat>, i: nat)
    requires Ordered(prob, s) && i < |s.nodes| && CountsParentsLeft(prob, s, counts, i + 1)
    ensures Needed(prob, s, i) <==> s.nodes[i].literal != -1 || counts[i] != 0
  {
    var left := ParentsLeft(prob, s, i, i + 1);
    forall k | k in Parents(prob, s, i)
      ensures k > i
    {
    }
    if left != {} {
      var k := Member(left);
      assert k in Parents(prob, s, i) && i < k && Needed(prob, s, k);
    }
    if exists k :: k in Parents(prob, s, i) && i < k && Needed(prob, s, k) {
      var k :| k in Parents(prob, s, i) && i < k && Needed(prob, s, k);
      assert k in left;
    }
  }

  lemma ParentsLeftStep(prob: Problem, s: State, i: nat, k: nat)
    requires Ordered(prob, s) && prob.numAtoms <= k < |s.nodes|
    ensures |ParentsLeft(prob, s, i, k)| == |ParentsLeft(prob, s, i, k + 1)|
            - if !Needed(prob, s, k) && (s.nodes[k].left == i || s.nodes[k].right == i) then 1 else 0
  {
    var before, after := ParentsLeft(prob, s, i, k + 1), ParentsLeft(prob, s, i, k);
    if !Needed(prob, s, k) && (s.nodes[k].left == i || s.nodes[k].right == i) {
      assert k in before;
      assert after == before - {k};
    } else {
      assert after == before;
    }
  }

  /** At first no parent has been dropped. */
  lemma StartCounts(prob: Problem, s: State, counts: seq<nat>)
    requires References(prob, s) && Ordered(prob, s) && |counts| == |s.nodes|
    requires forall i | 0 <= i < |s.nodes| :: counts[i] == s.nodes[i].referenceCount
    ensures CountsParentsLeft(prob, s, counts, |s.nodes|) && Decided(prob, s, counts, |s.nodes|)
    ensures prob.numAtoms <= |s.nodes|
  {
    forall i | 0 <= i < |s.nodes|
      ensures counts[i] == |ParentsLeft(prob, s, i, |s.nodes|)|
    {
      assert ParentsLeft(prob, s, i, |s.nodes|) == Parents(prob, s, i);
    }
  }

  /** A dropped node gives up its two children; nothing above it changes. */
  lemma DropStep(prob: Problem, s: State, counts: seq<nat>, k: nat)
    requires Ordered(prob, s) && prob.numAtoms <= k < |s.nodes| && CountsParentsLeft(prob, s, counts, k + 1)
    ensures var l, r := s.nodes[k].left, s.nodes[k].right;
            if Needed(prob, s, k) then CountsParentsLeft(prob, s, counts, k)
            else counts[l] > 0 && counts[r] > 0
                 && CountsParentsLeft(prob, s, counts[l := counts[l] - 1][r := counts[r] - 1], k)
  {
    hide ParentsLeft, Needed;
    assert forall i | 0 <= i < |counts| :: counts[i] == |ParentsLeft(prob, s, i, k + 1)|;
    forall i | 0 <= i < |counts|
      ensures |ParentsLeft(prob, s, i, k)| == |ParentsLeft(prob, s, i, k + 1)|
              - if !Needed(prob, s, k) && (s.nodes[k].left == i || s.nodes[k].right == i) then 1 else 0
    {
      ParentsLeftStep(prob, s, i, k);
    }
    var l, r := s.nodes[k].left, s.nodes[k].right;
    assert counts[l] == |ParentsLeft(prob, s, l, k)| + if Needed(prob, s, k) then 0 else 1;
    assert counts[r] == |ParentsLeft(prob, s, r, k)| + if Needed(prob, s, k) then 0 else 1;
  }

  /** From node n on, exactly the needed nodes have a literal or a reference. */
  ghost predicate Decided(prob: Problem, s: State, counts: seq<nat>, n: nat) {
    forall i | n <= i < |s.nodes| && i < |counts| :: Needed(prob, s, i) <==> s.nodes[i].literal != -1 || counts[i] != 0
  }

  /** A node without literal and references gives up its children. */
  method DropNode(s: State, before: seq<nat>, nodeId: nat, ghost prob: Problem) returns (counts: seq<nat>)
    requires Ordered(prob, s) && prob.numAtoms <= nodeId < |s.nodes| == |before|
    requires CountsParentsLeft(prob, s, before, nodeId + 1)
    requires Decided(prob, s, before, nodeId + 1)
    ensures |counts| == |before| && CountsParentsLeft(prob, s, counts, nodeId) && Decided(prob, s, counts, nodeId)
  {
    DecidedByCount(prob, s, before, nodeId);
    DropStep(prob, s, before, nodeId);
    hide CountsParentsLeft, Needed;
    counts := before;
    var n := s.nodes[nodeId];
    if n.literal == -1 && counts[nodeId] == 0 {
      counts := counts[n.left := counts[n.left] - 1];
      counts := counts[n.right := counts[n.right] - 1];
    }
  }

  /** The reference counts that remain, from the last node down. */
  method DropUnused(s: State, numAtoms: nat, ghost prob: Problem) returns (counts: seq<nat>)
    requires Ordered(prob, s) && References(prob, s) && numAtoms == prob.numAtoms
    ensures |counts| == |s.nodes| && Decided(prob, s, counts, 0)
  {
    hide *;
    counts := seq(|s.nodes|, i requires 0 <= i < |s.nodes| => s.nodes[i].referenceCount);
    StartCounts(prob, s, counts);
    for nodeId := |s.nodes| downto numAtoms
      invariant |counts| == |s.nodes| && CountsParentsLeft(prob, s, counts, nodeId) && Decided(prob, s, counts, nodeId)
    {
      counts := DropNode(s, counts, nodeId, prob);
    }
    AtomsDecided(prob, s, counts);
  }

  lemma AtomsDecided(prob: Problem, s: State, counts: seq<nat>)
    requires Ordered(prob, s) && CountsParentsLeft(prob, s, counts, prob.numAtoms)
             && Decided(prob, s, counts, prob.numAtoms)
    ensures Decided(prob, s, counts, 0)
  {
    forall i | 0 <= i < prob.numAtoms
      ensures Needed(prob, s, i) <==> s.nodes[i].literal != -1 || counts[i] != 0
    {
      var left := ParentsLeft(prob, s, i, prob.numAtoms);
      if left != {} {
        var k := Member(left);
        assert k in Parents(prob, s, i) && i < k && Needed(prob, s, k);
      }
      if exists k :: k in Parents(prob, s, i) && i < k && Needed(prob, s, k) {
        var k :| k in Parents(prob, s, i) && i < k && Needed(prob, s, k);
        assert k in left;
      }
    }
  }

  // ---------------------------------------------------------------------
  // The nodes that are kept
  // ---------------------------------------------------------------------

  ghost predicate Kept(prob: Problem, s: State, i: nat) {
    i < prob.numAtoms || Needed(prob, s, i)
  }

  lemma ChildrenAreKept(prob: Problem, s: State, k: nat)
    requires Ordered(prob, s) && prob.numAtoms <= k < |s.nodes| && Needed(prob, s, k)
    ensures Kept(prob, s, s.nodes[k].left) && Kept(prob, s, s.nodes[k].right)
  {
    assert k in Parents(prob, s, s.nodes[k].left) && k in Parents(prob, s, s.nodes[k].right);
  }

  /** The plan made of the first n nodes: index tells the place of every kept
      node, origin the node of every place, and both go up. */
  ghost predicate PlanOf(prob: Problem, s: State, n: nat, plan: PredicateEvaluationPlan, index: seq<int>,
                         origin: seq<nat>) {
    && n <= |s.nodes| == |index| && |origin| == |plan.nodes| && plan.numAtoms == prob.numAtoms <= |plan.nodes| <= n
    && Renumbered(prob, s, n, index, origin)
    && forall j | 0 <= j < |origin| :: NodeOf(prob, s, plan.nodes[j], s.nodes[origin[j]], j, index)
  }

  /** index and origin are inverse to each other on the kept nodes below n. */
  ghost predicate Renumbered(prob: Problem, s: State, n: nat, index: seq<int>, origin: seq<nat>) {
    && n <= |s.nodes| == |index| && prob.numAtoms <= |origin| <= n
    && (forall i | 0 <= i < n && Kept(prob, s, i) :: 0 <= index[i] < |origin| && origin[index[i]] == i)
    && (forall j | 0 <= j < |origin| :: origin[j] < n && Kept(prob, s, origin[j]) && index[origin[j]] == j)
    && (forall j | 0 <= j < prob.numAtoms :: origin[j] == j)
    && (forall j, j' | 0 <= j < j' < |origin| :: origin[j] < origin[j'])
  }

  lemma RenumberNext(prob: Problem, s: State, n: nat, index: seq<int>, origin: seq<nat>)
    requires Renumbered(prob, s, n, index, origin) && n < |s.nodes| && Kept(prob, s, n)
    ensures Renumbered(prob, s, n + 1, index[n := |origin|], origin + [n])
  {
    hide Kept;
  }

  ghost predicate NodeOf(prob: Problem, s: State, node: PlanNode, info: PredicateInfo, j: nat, index: seq<int>) {
    && node.literal == info.literal
    && (j >= prob.numAtoms ==>
          && 0 <= info.left < |index| && 0 <= info.right < |index|
          && node.left == index[info.left] && node.right == index[info.right])
  }

  /** Place j of the plan comes from node origin[j]. */
  lemma Trace(prob: Problem, s: State, plan: PredicateEvaluationPlan, index: seq<int>, origin: seq<nat>, j: nat)
    requires PlanOf(prob, s, |s.nodes|, plan, index, origin) && j < |plan.nodes|
    ensures |origin| == |plan.nodes| && |index| == |s.nodes| && plan.numAtoms == prob.numAtoms
    ensures origin[j] < |s.nodes| && index[origin[j]] == j
            && NodeOf(prob, s, plan.nodes[j], s.nodes[origin[j]], j, index)
    ensures j >= prob.numAtoms ==> Needed(prob, s, origin[j]) && origin[j] >= prob.numAtoms
    ensures j < prob.numAtoms ==> origin[j] == j
  {
    if j >= prob.numAtoms { AtomsComeFirst(prob, origin, j); }
  }

  lemma Trail(prob: Problem, s: State, plan: PredicateEvaluationPlan, index: seq<int>, origin: seq<nat>, i: nat)
    requires PlanOf(prob, s, |s.nodes|, plan, index, origin) && i < |s.nodes| && Kept(prob, s, i)
    ensures |origin| == |plan.nodes| && |index| == |s.nodes| && plan.numAtoms == prob.numAtoms
    ensures 0 <= index[i] < |plan.nodes| && origin[index[i]] == i
  {
  }

  lemma TraceApart(prob: Problem, s: State, plan: PredicateEvaluationPlan, index: seq<int>, origin: seq<nat>, j: nat,
                   k: nat)
    requires PlanOf(prob, s, |s.nodes|, plan, index, origin) && j < |plan.nodes| && k < |plan.nodes|
    ensures |origin| == |plan.nodes| && (origin[j] < origin[k] <==> j < k)
  {
    hide NodeOf, Kept;
  }

  /** The atoms come first, in their own order. */
  method AtomPlaces(s: State, numAtoms: nat, rootLiteral: int, ghost prob: Problem)
    returns (nodes: seq<PlanNode>, place: seq<int>, ghost origin: seq<nat>)
    requires Ordered(prob, s) && numAtoms == prob.numAtoms
    ensures |place| == |s.nodes|
    ensures PlanOf(prob, s, numAtoms, PredicateEvaluationPlan(rootLiteral, nodes, numAtoms), place, origin)
  {
    nodes := seq(numAtoms, a requires 0 <= a < numAtoms => PlanNode(s.nodes[a].literal, -1, -1));
    place := seq(|s.nodes|, a requires 0 <= a < |s.nodes| => if a < numAtoms then a else -1);
    origin := seq(numAtoms, a requires 0 <= a < numAtoms => a);
    StartsWithAtoms(prob, s, PredicateEvaluationPlan(rootLiteral, nodes, numAtoms), place, origin);
  }

  /** Kept conjunctions are appended in order, with their children's new places. */
  method EmitPlan(s: State, numAtoms: nat, rootLiteral: int, counts: seq<nat>, ghost prob: Problem)
    returns (plan: PredicateEvaluationPlan, ghost index: seq<int>, ghost origin: seq<nat>)
    requires Ordered(prob, s) && numAtoms == prob.numAtoms && |counts| == |s.nodes| && Decided(prob, s, counts, 0)
    ensures PlanOf(prob, s, |s.nodes|, plan, index, origin) && plan.literal == rootLiteral
  {
    hide Needed, PlanOf, Kept, Renumbered, NodeOf;
    var nodes, place;
    nodes, place, origin := AtomPlaces(s, numAtoms, rootLiteral, prob);
    for nodeId := numAtoms to |s.nodes|
      invariant |place| == |s.nodes|
                && PlanOf(prob, s, nodeId, PredicateEvaluationPlan(rootLiteral, nodes, numAtoms), place, origin)
    {
      var n := s.nodes[nodeId];
      if n.literal != -1 || counts[nodeId] != 0 {
        KeepNode(prob, s, nodeId, PredicateEvaluationPlan(rootLiteral, nodes, numAtoms), place, origin);
        place := place[nodeId := |nodes|];
        nodes := nodes + [PlanNode(n.literal, place[n.left], place[n.right])];
        origin := origin + [nodeId];
      } else {
        SkipNode(prob, s, nodeId, PredicateEvaluationPlan(rootLiteral, nodes, numAtoms), place, origin);
      }
    }
    plan, index := PredicateEvaluationPlan(rootLiteral, nodes, numAtoms), place;
  }

  lemma StartsWithAtoms(prob: Problem, s: State, plan: PredicateEvaluationPlan, index: seq<int>, origin: seq<nat>)
    requires Ordered(prob, s) && |index| == |s.nodes| && |origin| == |plan.nodes| == plan.numAtoms == prob.numAtoms
    requires forall a | 0 <= a < prob.numAtoms ::
               index[a] == origin[a] == a && plan.nodes[a].literal == s.nodes[a].literal
    ensures PlanOf(prob, s, prob.numAtoms, plan, index, origin)
  {
    hide Needed;
  }

  lemma KeepNode(prob: Problem, s: State, n: nat, plan: PredicateEvaluationPlan, index: seq<int>, origin: seq<nat>)
    requires Ordered(prob, s) && prob.numAtoms <= n < |s.nodes| && Needed(prob, s, n)
    requires |index| == |s.nodes| && PlanOf(prob, s, n, plan, index, origin)
    ensures var index' := index[n := |plan.nodes|];
            var node := PlanNode(s.nodes[n].literal, index'[s.nodes[n].left], index'[s.nodes[n].right]);
            PlanOf(prob, s, n + 1, plan.(nodes := plan.nodes + [node]), index', origin + [n])
  {
    ChildrenAreKept(prob, s, n);
    RenumberNext(prob, s, n, index, origin);
    assert Renumbered(prob, s, n, index, origin);
    var index' := index[n := |plan.nodes|];
    AtomsBelow(prob, s, n, index, origin);
    hide Needed, Renumbered, Kept;
    forall j | 0 <= j < |origin|
      ensures NodeOf(prob, s, plan.nodes[j], s.nodes[origin[j]], j, index')
    {
      assert NodeOf(prob, s, plan.nodes[j], s.nodes[origin[j]], j, index);
    }
  }

  lemma AtomsBelow(prob: Problem, s: State, n: nat, index: seq<int>, origin: seq<nat>)
    requires Renumbered(prob, s, n, index, origin)
    ensures forall j | 0 <= j < |origin| :: origin[j] < n
    ensures forall j | prob.numAtoms <= j < |origin| :: origin[j] >= prob.numAtoms
  {
    forall j | prob.numAtoms <= j < |origin|
      ensures origin[j] >= prob.numAtoms
    {
      AtomsComeFirst(prob, origin, j);
    }
  }

  lemma SkipNode(prob: Problem, s: State, n: nat, plan: PredicateEvaluationPlan, index: seq<int>, origin: seq<nat>)
    requires prob.numAtoms <= n < |s.nodes| && !Needed(prob, s, n) && PlanOf(prob, s, n, plan, index, origin)
    ensures PlanOf(prob, s, n + 1, plan, index, origin)
  {
    hide Needed;
  }

  /** Children of kept nodes are kept and come before them. */
  lemma PlanIsWellFormed(prob: Problem, s: State, plan: PredicateEvaluationPlan, index: seq<int>, origin: seq<nat>)
    requires Ordered(prob, s) && PlanOf(prob, s, |s.nodes|, plan, index, origin)
    ensures plan.WellFormed()
    ensures forall j | prob.numAtoms <= j < |plan.nodes| ::
              plan.nodes[j].left < |origin| && plan.nodes[j].right < |origin|
              && origin[plan.nodes[j].left] == s.nodes[origin[j]].left
              && origin[plan.nodes[j].right] == s.nodes[origin[j]].right
  {
    assert |plan.nodes| >= plan.numAtoms == prob.numAtoms && |origin| == |plan.nodes|;
    hide PlanOf, Ordered, Needed;
    forall j | prob.numAtoms <= j < |plan.nodes|
      ensures 0 <= plan.nodes[j].left < j && 0 <= plan.nodes[j].right < j
      ensures origin[plan.nodes[j].left] == s.nodes[origin[j]].left
      ensures origin[plan.nodes[j].right] == s.nodes[origin[j]].right
    {
      ChildrenPrecede(prob, s, plan, index, origin, j);
    }
  }

  lemma ChildrenPrecede(prob: Problem, s: State, plan: PredicateEvaluationPlan, index: seq<int>, origin: seq<nat>,
                        j: nat)
    requires Ordered(prob, s) && PlanOf(prob, s, |s.nodes|, plan, index, origin)
    requires prob.numAtoms <= j < |plan.nodes|
    ensures |origin| == |plan.nodes| && origin[j] < |s.nodes|
    ensures 0 <= plan.nodes[j].left < j && 0 <= plan.nodes[j].right < j
    ensures origin[plan.nodes[j].left] == s.nodes[origin[j]].left
    ensures origin[plan.nodes[j].right] == s.nodes[origin[j]].right
  {
    hide PlanOf;
    Trace(prob, s, plan, index, origin, j);
    var n := s.nodes[origin[j]];
    ChildrenAreKept(prob, s, origin[j]);
    Trail(prob, s, plan, index, origin, n.left);
    Trail(prob, s, plan, index, origin, n.right);
    TraceApart(prob, s, plan, index, origin, index[n.left], j);
    TraceApart(prob, s, plan, index, origin, index[n.right], j);
  }

  lemma AtomsComeFirst(prob: Problem, origin: seq<nat>, j: nat)
    requires prob.numAtoms <= j < |origin|
    requires forall a | 0 <= a < prob.numAtoms :: origin[a] == a
    requires forall a, b | 0 <= a < b < |origin| :: origin[a] < origin[b]
    ensures origin[j] >= prob.numAtoms
  {
    if prob.numAtoms > 0 {
      assert origin[prob.numAtoms - 1] < origin[j];
    }
  }

  /** Every place of the plan stands for the conjunction its node stood for. */
  lemma {:induction false} PlanKeepsAtoms(prob: Problem, s: State, plan: PredicateEvaluationPlan, index: seq<int>,
                                          origin: seq<nat>, j: nat)
    requires Inv(prob, s) && Ordered(prob, s) && PlanOf(prob, s, |s.nodes|, plan, index, origin)
    requires plan.WellFormed() && j < |plan.nodes|
    ensures plan.AtomsOf(j) == s.nodes[origin[j]].atoms
  {
    Trace(prob, s, plan, index, origin, j);
    assert NodeOk(prob, s, origin[j]);
    if j >= prob.numAtoms {
      PlanIsWellFormed(prob, s, plan, index, origin);
      PlanKeepsAtoms(prob, s, plan, index, origin, plan.nodes[j].left);
      PlanKeepsAtoms(prob, s, plan, index, origin, plan.nodes[j].right);
    }
  }

  // ---------------------------------------------------------------------
  // The generated plan
  // ---------------------------------------------------------------------

  datatype Generated = Plan(atoms: seq<FilterAtom>, plan: PredicateEvaluationPlan) | Diverges

  /** Every literal sits at exactly one place, the conjunction at that place is
      exactly the literal's, and no conjunction is there for nothing. */
  ghost predicate PlanFor(plan: PredicateEvaluationPlan, atoms: seq<FilterAtom>, literals: seq<Variables>,
                          joinKey: nat) {
    && plan.WellFormed() && plan.numAtoms == |atoms| && (plan.numAtoms == 0 ==> plan.nodes == [])
    && (forall l | 0 <= l < |literals| :: HasPlace(plan, l))
    && (forall a, b | 0 <= a < b <= |plan.nodes| && plan.HasLiteral(a) :: plan.LiteralAt(a) != plan.LiteralAt(b))
    && (forall place | 0 <= place <= |plan.nodes| && plan.HasLiteral(place) ::
          Means(plan, place, atoms, literals, joinKey, plan.LiteralAt(place)))
    && (forall j | plan.numAtoms <= j < |plan.nodes| :: plan.nodes[j].literal >= 0 || Shares(plan, j))
    && forall a | a in atoms :: Wanted(literals, joinKey, |literals|, a)
  }

  ghost predicate Means(plan: PredicateEvaluationPlan, place: nat, atoms: seq<FilterAtom>, literals: seq<Variables>,
                        joinKey: nat, l: nat)
    requires plan.WellFormed() && place <= |plan.nodes|
  {
    && l < |literals| && (forall a | a in plan.PlaceAtoms(place) :: a < |atoms|)
    && BoundAtoms(literals[l], joinKey, |literals[l]|) == set a | a in plan.PlaceAtoms(place) :: atoms[a]
  }

  ghost predicate HasPlace(plan: PredicateEvaluationPlan, l: nat) {
    exists place: nat :: place <= |plan.nodes| && plan.LiteralAt(place) == l
  }

  /** A later conjunction uses node j. */
  ghost predicate Shares(plan: PredicateEvaluationPlan, j: nat) {
    exists k :: j < k < |plan.nodes| && Uses(plan.nodes[k], j)
  }

  ghost predicate Uses(node: PlanNode, j: nat) {
    node.left == j || node.right == j
  }

  lemma LiteralHasPlace(c: Collected, prob: Problem, s: State, plan: PredicateEvaluationPlan, index: seq<int>,
                        origin: seq<nat>, l: nat)
    requires c.PlacedOk() && prob == Problem(c.atomSets, |c.atoms.list|) && Inv(prob, s) && s.remaining == {}
    requires PlanOf(prob, s, |s.nodes|, plan, index, origin) && plan.literal == c.rootLiteral && l < |c.atomSets|
    ensures HasPlace(plan, l)
  {
    if c.atomSets[l] == {} {
      assert c.rootLiteral == l;
      assert plan.LiteralAt(0) == l;
    } else {
      assert Placed(prob, s, l);
      var i :| 0 <= i < |s.nodes| && s.nodes[i].literal == l;
      hide PlanOf;
      Trail(prob, s, plan, index, origin, i);
      var j := index[i];
      Trace(prob, s, plan, index, origin, j);
      assert plan.LiteralAt(j + 1) == l;
    }
  }

  lemma LiteralPlaceMeans(literals: seq<Variables>, joinKey: nat, c: Collected, prob: Problem, s: State,
                          plan: PredicateEvaluationPlan, index: seq<int>, origin: seq<nat>, place: nat)
    requires c.PlacedOk() && prob == Problem(c.atomSets, |c.atoms.list|) && Inv(prob, s) && Ordered(prob, s)
    requires Numbering(prob, c.atoms.list, literals, joinKey)
    requires PlanOf(prob, s, |s.nodes|, plan, index, origin) && plan.literal == c.rootLiteral
    requires plan.WellFormed() && place <= |plan.nodes| && plan.HasLiteral(place)
    ensures Means(plan, place, c.atoms.list, literals, joinKey, plan.LiteralAt(place))
  {
    hide PlanOf, Ordered;
    var l := plan.LiteralAt(place);
    if place > 0 {
      var j := place - 1;
      Trace(prob, s, plan, index, origin, j);
      PlanKeepsAtoms(prob, s, plan, index, origin, j);
      hide Needed;
      assert NodeOk(prob, s, origin[j]);
    }
    assert plan.PlaceAtoms(place) == prob.atomSets[l];
  }

  lemma LiteralsApart(c: Collected, prob: Problem, s: State, plan: PredicateEvaluationPlan, index: seq<int>,
                      origin: seq<nat>, a: nat, b: nat)
    requires c.PlacedOk() && prob == Problem(c.atomSets, |c.atoms.list|) && Inv(prob, s)
    requires PlanOf(prob, s, |s.nodes|, plan, index, origin) && plan.literal == c.rootLiteral
    requires a < b <= |plan.nodes| && plan.HasLiteral(a)
    ensures plan.LiteralAt(a) != plan.LiteralAt(b)
  {
    hide PlanOf, Needed;
    var j := b - 1;
    Trace(prob, s, plan, index, origin, j);
    if a > 0 {
      Trace(prob, s, plan, index, origin, a - 1);
      TraceApart(prob, s, plan, index, origin, a - 1, j);
    } else {
      assert NodeOk(prob, s, origin[j]);
    }
  }

  lemma NothingForNothing(prob: Problem, s: State, plan: PredicateEvaluationPlan, index: seq<int>, origin: seq<nat>,
                          j: nat)
    requires Ordered(prob, s) && PlanOf(prob, s, |s.nodes|, plan, index, origin)
    requires prob.numAtoms <= j < |plan.nodes| && plan.nodes[j].literal < 0
    ensures Shares(plan, j)
  {
    hide PlanOf;
    Trace(prob, s, plan, index, origin, j);
    var i := origin[j];
    var k :| k in Parents(prob, s, i) && i < k && Needed(prob, s, k);
    hide Needed;
    assert Kept(prob, s, k);
    Trail(prob, s, plan, index, origin, k);
    var m := index[k];
    Trace(prob, s, plan, index, origin, m);
    TraceApart(prob, s, plan, index, origin, j, m);
    assert Uses(plan.nodes[m], j);
  }

  lemma PlanIsRight(literals: seq<Variables>, joinKey: nat, c: Collected, prob: Problem, s: State,
                    plan: PredicateEvaluationPlan, index: seq<int>, origin: seq<nat>)
    requires c.Ok(literals, joinKey, |literals|) && prob == Problem(c.atomSets, |c.atoms.list|)
    requires Numbering(prob, c.atoms.list, literals, joinKey)
    requires Inv(prob, s) && Ordered(prob, s) && s.remaining == {} && (prob.numAtoms == 0 ==> s.nodes == [])
    requires PlanOf(prob, s, |s.nodes|, plan, index, origin) && plan.literal == c.rootLiteral
    requires forall a | a in c.atoms.list :: Wanted(literals, joinKey, |literals|, a)
    ensures PlanFor(plan, c.atoms.list, literals, joinKey)
  {
    PlanIsWellFormed(prob, s, plan, index, origin);
    assert plan.numAtoms == prob.numAtoms && |plan.nodes| <= |s.nodes|;
    assert |c.atomSets| == |literals|;
    assert c.PlacedOk();
    hide Inv, Ordered, PlanOf, Numbering, Wanted, Means, Shares, HasPlace, Collected.Ok,
        PredicateEvaluationPlan.WellFormed, Collected.PlacedOk;
    forall l | 0 <= l < |literals|
      ensures HasPlace(plan, l)
    {
      LiteralHasPlace(c, prob, s, plan, index, origin, l);
    }
    forall a, b | 0 <= a < b <= |plan.nodes| && plan.HasLiteral(a)
      ensures plan.LiteralAt(a) != plan.LiteralAt(b)
    {
      LiteralsApart(c, prob, s, plan, index, origin, a, b);
    }
    forall place | 0 <= place <= |plan.nodes| && plan.HasLiteral(place)
      ensures Means(plan, place, c.atoms.list, literals, joinKey, plan.LiteralAt(place))
    {
      LiteralPlaceMeans(literals, joinKey, c, prob, s, plan, index, origin, place);
    }
    forall j | plan.numAtoms <= j < |plan.nodes|
      ensures plan.nodes[j].literal >= 0 || Shares(plan, j)
    {
      if plan.nodes[j].literal < 0 {
        NothingForNothing(prob, s, plan, index, origin, j);
      }
    }
  }

  lemma FinishesFrom(literals: seq<Variables>, joinKey: nat, order: Order, c: Collected)
    requires c == Collect(literals, joinKey, |literals|)
    ensures GroupFinishes(literals, joinKey, order)
            <==> Finishes(Problem(c.atomSets, |c.atoms.list|), order, StartState(c))
  {
    hide Finishes;
  }

  /** The plan of a join group. Diverges stands for a merging loop that does not
      end, which it is exactly when that loop does not. */
  method GeneratePredicateEvaluationPlan(literals: seq<Variables>, joinKey: nat, order: Order) returns (r: Generated)
    requires JoinGroup(literals, joinKey) && Enumerates(order)
    ensures r.Plan? ==> PlanFor(r.plan, r.atoms, literals, joinKey)
    ensures r.Diverges? <==> !GroupFinishes(literals, joinKey, order)
  {
    hide *;
    var c, prob, s0 := Start(literals, joinKey);
    var s, diverges := MergeAll(s0, order, prob, c.atomSets);
    FinishesFrom(literals, joinKey, order, c);
    if diverges {
      return Diverges;
    }
    InvIsOrdered(prob, s);
    var counts := DropUnused(s, |c.atoms.list|, prob);
    var plan, index, origin := EmitPlan(s, |c.atoms.list|, c.rootLiteral, counts, prob);
    PlanIsRight(literals, joinKey, c, prob, s, plan, index, origin);
    r := Plan(c.atoms.list, plan);
  }
}
