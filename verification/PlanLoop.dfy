/** The merging loop of GeneratePredicateEvaluationPlan
    (learner/CandidateLiteralEvaluator.cpp). */
module PlanLoop {
  import opened Collections
  import opened EvaluationPlan
  import opened Bindings
  import opened PlanAtoms
  import opened PlanGenerator

  // ---------------------------------------------------------------------
  // The state the loop starts from
  // ---------------------------------------------------------------------

  lemma AtomsTellLiteralsApart(literals: seq<Variables>, joinKey: nat, l: nat, m: nat)
    requires JoinGroup(literals, joinKey) && l < m < |literals|
    ensures BoundAtoms(literals[l], joinKey, |literals[l]|) != BoundAtoms(literals[m], joinKey, |literals[m]|)
  {
    var x, y := literals[l], literals[m];
    assert |x| == |y| && x != y;
    var v :| 0 <= v < |x| && x[v] != y[v];
    assert v != joinKey;
    if x[v] >= 0 {
      assert FilterAtom(v, x[v]) in BoundAtoms(x, joinKey, |x|) && FilterAtom(v, x[v]) !in BoundAtoms(y, joinKey, |y|);
    } else {
      assert FilterAtom(v, y[v]) in BoundAtoms(y, joinKey, |y|) && FilterAtom(v, y[v]) !in BoundAtoms(x, joinKey, |x|);
    }
  }

  /** The atom numbers mean the literals' equalities. */
  ghost predicate Numbering(prob: Problem, atoms: seq<FilterAtom>, literals: seq<Variables>, joinKey: nat) {
    && prob.Valid() && prob.numAtoms == |atoms| && |prob.atomSets| == |literals|
    && forall l | 0 <= l < |literals| ::
         BoundAtoms(literals[l], joinKey, |literals[l]|) == set i | i in prob.atomSets[l] :: atoms[i]
  }

  lemma NumberingHolds(literals: seq<Variables>, joinKey: nat, c: Collected)
    requires JoinGroup(literals, joinKey) && c.Ok(literals, joinKey, |literals|)
    ensures Numbering(Problem(c.atomSets, |c.atoms.list|), c.atoms.list, literals, joinKey)
  {
    var prob := Problem(c.atomSets, |c.atoms.list|);
    hide BoundAtoms, JoinGroup;
    forall l | 0 <= l < |literals|
      ensures BoundAtoms(literals[l], joinKey, |literals[l]|) == set i | i in prob.atomSets[l] :: c.atoms.list[i]
    {
      var wanted := BoundAtoms(literals[l], joinKey, |literals[l]|);
      assert c.atoms.Knows(wanted) && c.atomSets[l] == c.atoms.Numbers(wanted);
      forall a | a in wanted
        ensures a in set i | i in prob.atomSets[l] :: c.atoms.list[i]
      {
        assert c.atoms.list[c.atoms.ids[a]] == a;
      }
    }
    forall l, m | 0 <= l < m < |literals|
      ensures c.atomSets[l] != c.atomSets[m]
    {
      AtomsTellLiteralsApart(literals, joinKey, l, m);
    }
  }

  /** Node a of the starting state, mergeable with the other nodes below n. */
  ghost predicate AtomNode(c: Collected, node: PredicateInfo, a: nat, n: nat)
    requires a < |c.atoms.literalIds|
  {
    && node.atoms == {a} && node.literalIds == c.atoms.literalIds[a]
    && (forall j :: j in node.mergeable <==> 0 <= j < n && j != a)
    && node.literal == (if a in c.nodeLiterals then c.nodeLiterals[a] else -1)
    && node.left == node.right == -1 && node.referenceCount == 0
  }

  ghost function Below(n: nat): (s: set<nat>)
    ensures forall j :: j in s <==> 0 <= j < n
  {
    if n == 0 then {} else Below(n - 1) + {n - 1}
  }

  /** The state the loop starts from: one node per atom. */
  ghost function StartState(c: Collected): (s: State)
    requires c.atoms.Valid()
    ensures |s.nodes| == |c.atoms.list| && s.remaining == c.remaining
    ensures forall a | 0 <= a < |s.nodes| :: AtomNode(c, s.nodes[a], a, |s.nodes|)
  {
    var n := |c.atoms.list|;
    State(seq(n, a requires 0 <= a < n =>
              PredicateInfo({a}, c.atoms.literalIds[a], Below(n) - {a},
                            if a in c.nodeLiterals then c.nodeLiterals[a] else -1, -1, -1, 0)),
          c.remaining)
  }

  lemma OnlyStartState(c: Collected, nodes: seq<PredicateInfo>)
    requires c.atoms.Valid() && |nodes| == |c.atoms.list|
    requires forall a | 0 <= a < |nodes| :: AtomNode(c, nodes[a], a, |nodes|)
    ensures State(nodes, c.remaining) == StartState(c)
  {
    var start := StartState(c);
    forall a | 0 <= a < |nodes|
      ensures nodes[a] == start.nodes[a]
    {
      assert AtomNode(c, nodes[a], a, |nodes|) && AtomNode(c, start.nodes[a], a, |nodes|);
      assert nodes[a].mergeable == start.nodes[a].mergeable;
    }
  }

  /** One node per atom, mergeable with every other atom. */
  method AtomNodes(c: Collected) returns (nodes: seq<PredicateInfo>)
    requires |c.atoms.literalIds| == |c.atoms.list|
    ensures |nodes| == |c.atoms.list|
    ensures forall a | 0 <= a < |nodes| :: AtomNode(c, nodes[a], a, |nodes|)
  {
    nodes := [];
    for a := 0 to |c.atoms.list|
      invariant |nodes| == a
      invariant forall b | 0 <= b < a :: AtomNode(c, nodes[b], b, 0)
    {
      var literal := if a in c.nodeLiterals then c.nodeLiterals[a] else -1;
      nodes := nodes + [PredicateInfo({a}, c.atoms.literalIds[a], {}, literal, -1, -1, 0)];
    }
    for a := 0 to |nodes|
      invariant |nodes| == |c.atoms.list|
      invariant forall b | 0 <= b < a :: AtomNode(c, nodes[b], b, |nodes|)
      invariant forall b | a <= b < |nodes| :: AtomNode(c, nodes[b], b, 0)
    {
      var mergeable: set<nat> := {};
      for i := 0 to |nodes|
        invariant forall j :: j in mergeable <==> 0 <= j < i && j != a
      {
        if i != a {
          mergeable := mergeable + {i};
        }
      }
      nodes := nodes[a := nodes[a].(mergeable := mergeable)];
    }
  }

  method Start(literals: seq<Variables>, joinKey: nat) returns (c: Collected, prob: Problem, s: State)
    requires JoinGroup(literals, joinKey)
    ensures c.Ok(literals, joinKey, |literals|) && prob == Problem(c.atomSets, |c.atoms.list|)
    ensures Numbering(prob, c.atoms.list, literals, joinKey)
    ensures Inv(prob, s) && References(prob, s) && |s.nodes| == prob.numAtoms
    ensures c == Collect(literals, joinKey, |literals|) && s == StartState(c)
    ensures forall a | a in c.atoms.list :: Wanted(literals, joinKey, |literals|, a)
  {
    c := CollectAtoms(literals, joinKey);
    prob := Problem(c.atomSets, |c.atoms.list|);
    StartsWell(literals, joinKey);
    hide *;
    hide Collected.Ok;
    var nodes := AtomNodes(c);
    s := State(nodes, c.remaining);
    OnlyStartState(c, nodes);
  }

  lemma StartsWell(literals: seq<Variables>, joinKey: nat)
    requires JoinGroup(literals, joinKey)
    ensures var c := Collect(literals, joinKey, |literals|);
            var prob, s := Problem(c.atomSets, |c.atoms.list|), StartState(c);
            && c.Ok(literals, joinKey, |literals|) && Numbering(prob, c.atoms.list, literals, joinKey)
            && Inv(prob, s) && References(prob, s)
            && |c.atoms.literalIds| == |c.atoms.list|
            && forall a | a in c.atoms.list :: Wanted(literals, joinKey, |literals|, a)
  {
    var c := Collect(literals, joinKey, |literals|);
    CollectIsOk(literals, joinKey, |literals|);
    NumberingHolds(literals, joinKey, c);
    StartIsOk(literals, joinKey, c, StartState(c));
    hide Inv, References, Numbering, Collected.Ok, Collect;
    assert c.atoms.Valid();
    forall a | a in c.atoms.list
      ensures a in c.atoms.ids
    {
      var i :| 0 <= i < |c.atoms.list| && c.atoms.list[i] == a;
    }
  }

  /** The loop over the join group's atoms ends. */
  ghost predicate GroupFinishes(literals: seq<Variables>, joinKey: nat, order: Order) {
    var c := Collect(literals, joinKey, |literals|);
    Finishes(Problem(c.atomSets, |c.atoms.list|), order, StartState(c))
  }

  ghost predicate FewBoundAtoms(literals: seq<Variables>, joinKey: nat) {
    forall l | 0 <= l < |literals| :: |BoundAtoms(literals[l], joinKey, |literals[l]|)| <= 2
  }

  /** Whatever order the unordered sets are walked in, the loop ends, if and only
      if no literal of the group has more than two equalities to filter by. */
  lemma GroupFinishesIff(literals: seq<Variables>, joinKey: nat)
    requires JoinGroup(literals, joinKey)
    ensures (forall order | Enumerates(order) :: GroupFinishes(literals, joinKey, order))
            <==> FewBoundAtoms(literals, joinKey)
  {
    var c := Collect(literals, joinKey, |literals|);
    var prob, s := Problem(c.atomSets, |c.atoms.list|), StartState(c);
    StartsWell(literals, joinKey);
    TerminationIff(prob, s);
    SameSizes(literals, joinKey, prob, c);
    hide Inv, Finishes, Numbering, FewBoundAtoms, Collect, StartState, Enumerates, References, Collected.Ok;
    assert forall order :: GroupFinishes(literals, joinKey, order) <==> Finishes(prob, order, s);
  }

  /** A literal has as many numbers as equalities. */
  lemma SameSizes(literals: seq<Variables>, joinKey: nat, prob: Problem, c: Collected)
    requires c.Ok(literals, joinKey, |literals|) && prob == Problem(c.atomSets, |c.atoms.list|)
    requires Numbering(prob, c.atoms.list, literals, joinKey)
    ensures (forall l | l in c.remaining :: |prob.atomSets[l]| <= 2) <==> FewBoundAtoms(literals, joinKey)
  {
    AtomsDiffer(literals, joinKey, c);
    forall l | 0 <= l < |literals|
      ensures |BoundAtoms(literals[l], joinKey, |literals[l]|)| == |prob.atomSets[l]|
    {
      hide BoundAtoms;
      ImageCard(prob.atomSets[l], c.atoms.list);
    }
    hide BoundAtoms, Numbering, Collected.NumbersOk;
    assert c.RemainingOk() && |c.atomSets| == |literals|;
  }

  lemma AtomsDiffer(literals: seq<Variables>, joinKey: nat, c: Collected)
    requires c.Ok(literals, joinKey, |literals|)
    ensures forall i, j | 0 <= i < j < |c.atoms.list| :: c.atoms.list[i] != c.atoms.list[j]
  {
  }

  lemma {:induction false} ImageCard(s: set<nat>, atoms: seq<FilterAtom>)
    requires forall i | i in s :: i < |atoms|
    requires forall i, j | 0 <= i < j < |atoms| :: atoms[i] != atoms[j]
    ensures |set i | i in s :: atoms[i]| == |s|
  {
    if s != {} {
      var x := Member(s);
      ImageCard(s - {x}, atoms);
      assert (set i | i in s :: atoms[i]) == (set i | i in s - {x} :: atoms[i]) + {atoms[x]};
    }
  }

  lemma StartIsOk(literals: seq<Variables>, joinKey: nat, c: Collected, s: State)
    requires c.Ok(literals, joinKey, |literals|)
             && Numbering(Problem(c.atomSets, |c.atoms.list|), c.atoms.list, literals, joinKey)
    requires s.remaining == c.remaining && |s.nodes| == |c.atoms.list|
    requires forall a | 0 <= a < |s.nodes| :: AtomNode(c, s.nodes[a], a, |s.nodes|)
    ensures Inv(Problem(c.atomSets, |c.atoms.list|), s) && References(Problem(c.atomSets, |c.atoms.list|), s)
  {
    var prob := Problem(c.atomSets, |c.atoms.list|);
    assert prob.Valid();
    hide Numbering, Collected.NumbersOk, Problem.Valid;
    assert |c.atoms.literalIds| == |c.atoms.list| && |c.atomSets| == |literals|;
    forall i | 0 <= i < |s.nodes|
      ensures NodeOk(prob, s, i) && s.nodes[i].referenceCount == |Parents(prob, s, i)|
    {
      StartNodeOk(c, s, i);
      assert Parents(prob, s, i) == {};
    }
    forall l | 0 <= l < |prob.atomSets| && prob.atomSets[l] != {}
      ensures l in s.remaining <==> !Placed(prob, s, l)
    {
      StartPlaced(c, s, l);
    }
  }

  lemma StartNodeOk(c: Collected, s: State, i: nat)
    requires c.RemainingOk() && c.PlacedOk() && Problem(c.atomSets, |c.atoms.list|).Valid()
    requires s.remaining == c.remaining && |s.nodes| == |c.atoms.list| == |c.atoms.literalIds| && i < |s.nodes|
    requires forall a | 0 <= a < |s.nodes| :: AtomNode(c, s.nodes[a], a, |s.nodes|)
    ensures NodeOk(Problem(c.atomSets, |c.atoms.list|), s, i)
  {
    assert AtomNode(c, s.nodes[i], i, |s.nodes|);
  }

  lemma StartPlaced(c: Collected, s: State, l: nat)
    requires c.RemainingOk() && c.PlacedOk() && Problem(c.atomSets, |c.atoms.list|).Valid()
    requires s.remaining == c.remaining && |s.nodes| == |c.atoms.list| == |c.atoms.literalIds|
    requires forall a | 0 <= a < |s.nodes| :: AtomNode(c, s.nodes[a], a, |s.nodes|)
    requires l < |c.atomSets| && c.atomSets[l] != {}
    ensures l in s.remaining <==> !Placed(Problem(c.atomSets, |c.atoms.list|), s, l)
  {
    var prob := Problem(c.atomSets, |c.atoms.list|);
    var i := Member(c.atomSets[l]);
    assert |c.atomSets[l]| >= 1;
    if |c.atomSets[l]| == 1 {
      SingletonIs(c.atomSets[l], i);
      var m := c.nodeLiterals[i];
      assert c.atomSets[m] == c.atomSets[l];
      assert AtomNode(c, s.nodes[i], i, |s.nodes|);
      assert m == l;
      assert s.nodes[i].literal == l;
    } else {
      forall j | 0 <= j < |s.nodes|
        ensures s.nodes[j].literal != l
      {
        assert AtomNode(c, s.nodes[j], j, |s.nodes|);
      }
    }
  }

  // ---------------------------------------------------------------------
  // Reference counts
  // ---------------------------------------------------------------------

  /** The conjunction nodes that have i as a child. */
  ghost function Parents(prob: Problem, s: State, i: nat): (ps: set<nat>) {
    set k | prob.numAtoms <= k < |s.nodes| && (s.nodes[k].left == i || s.nodes[k].right == i)
  }

  /** A node's reference count is the number of its parents; no node is both
      children of one parent. */
  ghost predicate References(prob: Problem, s: State) {
    && (forall i | 0 <= i < |s.nodes| :: s.nodes[i].referenceCount == |Parents(prob, s, i)|)
    && forall k | prob.numAtoms <= k < |s.nodes| :: s.nodes[k].left != s.nodes[k].right
  }

  lemma ParentsAfterMerge(prob: Problem, s: State, s': State, p: nat, q: nat, i: nat)
    requires prob.numAtoms <= |s.nodes| && |s'.nodes| == |s.nodes| + 1
    requires forall k | 0 <= k < |s.nodes| ::
               s'.nodes[k].left == s.nodes[k].left && s'.nodes[k].right == s.nodes[k].right
    requires s'.nodes[|s.nodes|].left == p && s'.nodes[|s.nodes|].right == q
    ensures |Parents(prob, s', i)| == |Parents(prob, s, i)| + if i == p || i == q then 1 else 0
  {
    var added: set<nat> := if i == p || i == q then {|s.nodes|} else {};
    assert Parents(prob, s', i) == Parents(prob, s, i) + added;
  }

  lemma NoParentsYet(prob: Problem, s: State)
    requires Inv(prob, s)
    ensures Parents(prob, s, |s.nodes|) == {}
  {
    forall k | prob.numAtoms <= k < |s.nodes|
      ensures s.nodes[k].left < |s.nodes| && s.nodes[k].right < |s.nodes|
    {
      assert NodeOk(prob, s, k);
    }
  }

  lemma ReferencesAfterMerge(prob: Problem, s: State, p: nat, q: nat, done: int)
    requires Inv(prob, s) && References(prob, s) && p < |s.nodes| && q < |s.nodes| && q in s.nodes[p].mergeable
    ensures References(prob, Merged(s, p, q, done))
  {
    var s' := Merged(s, p, q, done);
    assert NodeOk(prob, s, p);
    NoParentsYet(prob, s);
    assert prob.numAtoms <= |s.nodes|;
    hide Inv, NodeOk, Parents;
    forall i | 0 <= i < |s'.nodes|
      ensures s'.nodes[i].referenceCount == |Parents(prob, s', i)|
    {
      ParentsAfterMerge(prob, s, s', p, q, i);
      MergedCount(s, p, q, done, i);
    }
    MergedChildren(s, p, q, done);
    hide Merged;
  }

  lemma MergedCount(s: State, p: nat, q: nat, done: int, i: nat)
    requires p < |s.nodes| && q < |s.nodes| && i <= |s.nodes|
    ensures var s' := Merged(s, p, q, done);
            && |s'.nodes| == |s.nodes| + 1
            && s'.nodes[i].referenceCount
               == if i == |s.nodes| then 0 else s.nodes[i].referenceCount + if i == p || i == q then 1 else 0
  {
  }

  lemma MergedChildren(s: State, p: nat, q: nat, done: int)
    requires p < |s.nodes| && q < |s.nodes|
    ensures var s' := Merged(s, p, q, done);
            && |s'.nodes| == |s.nodes| + 1 && s'.nodes[|s.nodes|].left == p && s'.nodes[|s.nodes|].right == q
            && forall k | 0 <= k < |s.nodes| ::
                 s'.nodes[k].left == s.nodes[k].left && s'.nodes[k].right == s.nodes[k].right
  {
  }

  // ---------------------------------------------------------------------
  // The best pair
  // ---------------------------------------------------------------------

  /** The best pair among those of the nodes below first, and of node first the
      first n in its order. */
  ghost predicate BestSoFar(s: State, order: Order, first: nat, n: nat, best: int, second: int, shared: nat)
    requires first <= |s.nodes|
  {
    && (forall i, j | 0 <= i < first && j in s.nodes[i].mergeable && j < |s.nodes| ::
          Shared(s, i, j) <= shared && (i < best ==> Shared(s, i, j) < shared))
    && (first < |s.nodes| ==>
          var e := order(first, s.nodes[first].mergeable);
          forall m | 0 <= m < n && m < |e| && e[m] < |s.nodes| :: Shared(s, first, e[m]) <= shared)
    && best <= first
    && (shared > 0 ==> Reaches(s, order, best, second, shared))
    && (shared == 0 ==> best == -1)
  }

  ghost predicate Reaches(s: State, order: Order, best: int, second: int, shared: nat) {
    && 0 <= best < |s.nodes| && 0 <= second < |s.nodes| && second in s.nodes[best].mergeable
    && Shared(s, best, second) == shared
    && FirstInOrder(s, best, order(best, s.nodes[best].mergeable), second, shared)
  }

  ghost predicate MergeableInRange(s: State) {
    forall i, j | 0 <= i < |s.nodes| && j in s.nodes[i].mergeable :: j < |s.nodes|
  }

  /** The double loop over first nodes and their mergeable partners. */
  method FindBestPair(s: State, order: Order, ghost prob: Problem) returns (best: nat, second: nat, shared: nat)
    requires Inv(prob, s) && Enumerates(order) && s.remaining != {}
    ensures IsBest(s, order, best, second, shared)
  {
    ghost var l := Member(s.remaining);
    ghost var x, y := SomePairShares(prob, s, l);
    PairsAreSymmetric(prob, s);
    hide Inv, Shared, Reaches, Enumerates, IsBest;
    var b, c, max := -1, -1, 0;
    for first := 0 to |s.nodes| - 1
      invariant BestSoFar(s, order, first, 0, b, c, max)
    {
      b, c, max := BestPartner(s, order, first, b, c, max);
    }
    LastNodeAddsNothing(prob, s, order, b, c, max);
    BestIsReached(s, order, x, y, b, c, max);
    best, second, shared := b, c, max;
  }

  method BestPartner(s: State, order: Order, first: nat, b: int, c: int, max: nat) returns (b': int, c': int, max': nat)
    requires first < |s.nodes| && BestSoFar(s, order, first, 0, b, c, max) && MergeableInRange(s) && Enumerates(order)
    ensures BestSoFar(s, order, first + 1, 0, b', c', max')
  {
    b', c', max' := b, c, max;
    var e := order(first, s.nodes[first].mergeable);
    OrderInRange(s, order, first);
    hide Enumerates, BestSoFar, Shared;
    for k := 0 to |e|
      invariant BestSoFar(s, order, first, k, b', c', max')
    {
      var size := Shared(s, first, e[k]);
      ComparePair(s, order, first, k, b', c', max');
      if size > max' {
        b', c', max' := first, e[k], size;
      }
    }
    NextNode(s, order, first, b', c', max');
  }

  lemma OrderInRange(s: State, order: Order, first: nat)
    requires first < |s.nodes| && MergeableInRange(s) && Enumerates(order)
    ensures forall k | 0 <= k < |order(first, s.nodes[first].mergeable)| ::
              && order(first, s.nodes[first].mergeable)[k] < |s.nodes|
              && order(first, s.nodes[first].mergeable)[k] in s.nodes[first].mergeable
  {
    var e := order(first, s.nodes[first].mergeable);
    assert forall j | j in e :: j in s.nodes[first].mergeable;
    assert forall k | 0 <= k < |e| :: e[k] in e;
  }

  lemma ComparePair(s: State, order: Order, first: nat, k: nat, b: int, c: int, max: nat)
    requires first < |s.nodes| && BestSoFar(s, order, first, k, b, c, max)
    requires k < |order(first, s.nodes[first].mergeable)|
    requires forall m | 0 <= m < |order(first, s.nodes[first].mergeable)| ::
              && order(first, s.nodes[first].mergeable)[m] < |s.nodes|
              && order(first, s.nodes[first].mergeable)[m] in s.nodes[first].mergeable
    ensures var j := order(first, s.nodes[first].mergeable)[k];
            var size := Shared(s, first, j);
            if size > max then BestSoFar(s, order, first, k + 1, first, j, size)
            else BestSoFar(s, order, first, k + 1, b, c, max)
  {
    hide Shared;
    var e := order(first, s.nodes[first].mergeable);
    var size := Shared(s, first, e[k]);
    if size > max {
      assert FirstInOrder(s, first, e, e[k], size);
    }
  }

  lemma NextNode(s: State, order: Order, first: nat, b: int, c: int, max: nat)
    requires first < |s.nodes| && Enumerates(order)
    requires BestSoFar(s, order, first, |order(first, s.nodes[first].mergeable)|, b, c, max)
    ensures BestSoFar(s, order, first + 1, 0, b, c, max)
  {
    hide Shared, Reaches;
    var e := order(first, s.nodes[first].mergeable);
    forall j | j in s.nodes[first].mergeable && j < |s.nodes|
      ensures Shared(s, first, j) <= max
    {
      assert j in e;
      var m :| 0 <= m < |e| && e[m] == j;
    }
  }

  /** Two nodes share as much either way, and the last node's pairs are pairs
      of an earlier one. */
  lemma PairsAreSymmetric(prob: Problem, s: State)
    requires Inv(prob, s)
    ensures MergeableInRange(s)
    ensures forall i, j | 0 <= i < |s.nodes| && j in s.nodes[i].mergeable :: Shared(s, i, j) == Shared(s, j, i)
    ensures |s.nodes| > 0 ==>
              forall j | j in s.nodes[|s.nodes| - 1].mergeable ::
                j < |s.nodes| - 1 && |s.nodes| - 1 in s.nodes[j].mergeable
  {
    forall i, j | 0 <= i < |s.nodes| && j in s.nodes[i].mergeable
      ensures j < |s.nodes| && Shared(s, i, j) == Shared(s, j, i)
    {
      assert NodeOk(prob, s, i);
      assert s.nodes[i].literalIds * s.nodes[j].literalIds == s.nodes[j].literalIds * s.nodes[i].literalIds;
    }
    if |s.nodes| > 0 {
      var last := |s.nodes| - 1;
      forall j | j in s.nodes[last].mergeable
        ensures j < last && last in s.nodes[j].mergeable
      {
        assert NodeOk(prob, s, last) && NodeOk(prob, s, j);
      }
    }
  }

  lemma LastNodeAddsNothing(prob: Problem, s: State, order: Order, b: int, c: int, max: nat)
    requires |s.nodes| > 0 && BestSoFar(s, order, |s.nodes| - 1, 0, b, c, max) && MergeableInRange(s)
    requires forall i, j | 0 <= i < |s.nodes| && j in s.nodes[i].mergeable :: Shared(s, i, j) == Shared(s, j, i)
    requires forall j | j in s.nodes[|s.nodes| - 1].mergeable ::
               j < |s.nodes| - 1 && |s.nodes| - 1 in s.nodes[j].mergeable
    ensures BestSoFar(s, order, |s.nodes|, 0, b, c, max)
  {
    hide Shared;
  }

  lemma BestIsReached(s: State, order: Order, x: nat, y: nat, b: int, c: int, max: nat)
    requires BestSoFar(s, order, |s.nodes|, 0, b, c, max)
    requires x < |s.nodes| && y < |s.nodes| && y in s.nodes[x].mergeable && Shared(s, x, y) > 0
    ensures b >= 0 && c >= 0 && IsBest(s, order, b, c, max)
  {
  }

  // ---------------------------------------------------------------------
  // One merge
  // ---------------------------------------------------------------------

  /** Which of the candidate literals has exactly these atoms. */
  method CheckCompleted(atomSets: seq<set<nat>>, candidates: set<nat>, atoms: set<nat>, ghost prob: Problem)
    returns (done: int, rest: set<nat>)
    requires prob.Valid() && atomSets == prob.atomSets && forall l | l in candidates :: l < |atomSets|
    ensures done == Completed(prob, candidates, atoms) && rest == candidates - Erased(done)
  {
    done, rest := -1, candidates;
    var todo := candidates;
    while todo != {}
      invariant todo <= candidates && rest == candidates - Erased(done)
      invariant done != -1 ==> done >= 0 && done in candidates - todo && atomSets[done] == atoms
      invariant done == -1 ==> forall l | l in candidates - todo :: atomSets[l] != atoms
      decreases |todo|
    {
      ghost var some := Member(todo);
      var l :| l in todo;
      if done == -1 && atomSets[l] == atoms {
        done, rest := l, rest - {l};
      }
      todo := todo - {l};
    }
  }

  /** Merges the pair into a new node and returns the literal that completes. */
  method MergePair(s: State, p: nat, q: nat, ghost prob: Problem, atomSets: seq<set<nat>>)
    returns (s': State, done: int)
    requires Inv(prob, s) && InRange(prob, s) && atomSets == prob.atomSets
    requires p < |s.nodes| && q < |s.nodes| && q in s.nodes[p].mergeable
    ensures done == CompletedBy(prob, s, p, q) && s' == Merged(s, p, q, done)
  {
    assert NodeOk(prob, s, p);
    hide Inv;
    var left, right := s.nodes[p], s.nodes[q];
    var atoms := left.atoms + right.atoms;
    var literalIds: set<nat>;
    done, literalIds := CheckCompleted(atomSets, left.literalIds * right.literalIds, atoms, prob);
    var nodes := s.nodes[p := left.(referenceCount := left.referenceCount + 1)];
    nodes := nodes[q := right.(referenceCount := right.referenceCount + 1)];
    for i := 0 to |s.nodes|
      invariant |nodes| == |s.nodes|
      invariant forall j | 0 <= j < i :: nodes[j] == Updated(s, p, q, done, j)
      invariant forall j | i <= j < |s.nodes| :: nodes[j] ==
                  s.nodes[j].(referenceCount := if j == p
                              || j == q then s.nodes[j].referenceCount + 1 else s.nodes[j].referenceCount)
    {
      var n := nodes[i];
      n := n.(literalIds := n.literalIds - Erased(done));
      if i != p && i != q && atoms !! n.atoms {
        n := n.(mergeable := n.mergeable + {|s.nodes|});
      }
      nodes := nodes[i := n];
    }
    s' := State(nodes + [PredicateInfo(atoms, literalIds, {}, done, p, q, 0)], s.remaining - Erased(done));
    assert s'.nodes == Merged(s, p, q, done).nodes;
  }

  // ---------------------------------------------------------------------
  // The loop
  // ---------------------------------------------------------------------

  /** Whether the loop ends does not change along the run. */
  lemma FinishesAlong(prob: Problem, order: Order, s: State, s': State)
    requires Enumerates(order) && s.remaining != {} && Step(prob, order, s, s')
    ensures Finishes(prob, order, s) <==> Finishes(prob, order, s')
  {
    if Finishes(prob, order, s') {
      FinishesAfterStep(prob, order, s, s');
    }
    if Finishes(prob, order, s) {
      var states: seq<State> :| |states| > 0 && LoopRun(prob, order, states) && states[0] == s
      && states[|states| - 1].remaining == {};
      assert Step(prob, order, s, states[1]);
      OneStep(prob, order, s, s', states[1]);
      RestRuns(prob, order, states);
    }
  }

  lemma OneStep(prob: Problem, order: Order, s: State, a: State, b: State)
    requires Enumerates(order) && Step(prob, order, s, a) && Step(prob, order, s, b)
    ensures a == b
  {
    var p, q, shared :| IsBest(s, order, p, q, shared) && a == Merged(s, p, q, CompletedBy(prob, s, p, q));
    OnlyThisStep(prob, order, s, b, p, q, shared);
  }

  lemma RestRuns(prob: Problem, order: Order, states: seq<State>)
    requires |states| > 1 && LoopRun(prob, order, states) && states[|states| - 1].remaining == {}
    ensures Finishes(prob, order, states[1])
  {
    hide Step;
    var rest := states[1..];
    forall i | 0 <= i < |rest| - 1
      ensures rest[i].remaining != {} && Step(prob, order, rest[i], rest[i + 1])
    {
      var k := i + 1;
      assert states[k].remaining != {} && Step(prob, order, states[k], states[k + 1]);
    }
    assert LoopRun(prob, order, rest);
  }

  lemma StuckNeverFinishes(prob: Problem, order: Order, s: State, p: nat, q: nat, shared: nat)
    requires Enumerates(order) && Stuck(prob, order, s, p, q, shared) && s.remaining != {}
    ensures !Finishes(prob, order, s)
  {
    if Finishes(prob, order, s) {
      var states: seq<State> :| |states| > 0 && LoopRun(prob, order, states) && states[0] == s
      && states[|states| - 1].remaining == {};
      NeverFinishes(prob, order, states, p, q, shared);
      assert false;
    }
  }

  /** Runs the loop to its end. The loop of the original runs for ever exactly
      when some iteration completes no literal; diverges reports that case. */
  method MergeAll(s0: State, order: Order, ghost prob: Problem, atomSets: seq<set<nat>>)
    returns (s: State, diverges: bool)
    requires Inv(prob, s0) && References(prob, s0) && Enumerates(order) && atomSets == prob.atomSets
    ensures diverges <==> !Finishes(prob, order, s0)
    ensures !diverges ==> Inv(prob, s) && References(prob, s) && s.remaining == {}
    ensures s0.nodes == [] ==> s.nodes == []
  {
    hide Inv, References, Enumerates, Finishes, Stuck, IsBest, Step, InRange, CompletedBy, Merged;
    s := s0;
    while s.remaining != {}
      invariant Inv(prob, s) && References(prob, s)
      invariant Finishes(prob, order, s) <==> Finishes(prob, order, s0)
      invariant s0.nodes == [] ==> s.nodes == []
      decreases |s.remaining|
    {
      var p, q, shared := FindBestPair(s, order, prob);
      InvInRange(prob, s);
      BestIsPair(s, order, p, q, shared);
      var s', done := MergePair(s, p, q, prob, atomSets);
      if done == -1 {
        IsStuck(prob, order, s, p, q, shared);
        StuckNeverFinishes(prob, order, s, p, q, shared);
        return s, true;
      }
      StepKeepsInv(prob, s, p, q);
      ReferencesAfterMerge(prob, s, p, q, done);
      CompletionShrinks(prob, s, p, q);
      BestIsStep(prob, order, s, p, q, shared);
      FinishesAlong(prob, order, s, s');
      s := s';
    }
    FinishesNow(prob, order, s);
    diverges := false;
  }

  lemma BestIsPair(s: State, order: Order, p: nat, q: nat, shared: nat)
    requires IsBest(s, order, p, q, shared)
    ensures p < |s.nodes| && q < |s.nodes| && q in s.nodes[p].mergeable
  {
  }

  lemma IsStuck(prob: Problem, order: Order, s: State, p: nat, q: nat, shared: nat)
    requires Inv(prob, s) && InRange(prob, s) && IsBest(s, order, p, q, shared) && CompletedBy(prob, s, p, q) == -1
    ensures Stuck(prob, order, s, p, q, shared)
  {
  }

  lemma BestIsStep(prob: Problem, order: Order, s: State, p: nat, q: nat, shared: nat)
    requires InRange(prob, s) && IsBest(s, order, p, q, shared)
    ensures Step(prob, order, s, Merged(s, p, q, CompletedBy(prob, s, p, q)))
  {
  }
}
