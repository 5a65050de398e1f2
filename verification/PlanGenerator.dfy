/** The greedy construction of shared conjunctions in
    learner/CandidateLiteralEvaluator.cpp (GeneratePredicateEvaluationPlan). */
module PlanGenerator {
  import opened Collections

  /** literal is the index of the attached literal, -1 if none. */
  datatype PredicateInfo = PredicateInfo(atoms: set<nat>, literalIds: set<nat>, mergeable: set<nat>,
                                         literal: int, left: int, right: int, referenceCount: nat)

  datatype State = State(nodes: seq<PredicateInfo>, remaining: set<nat>)

  /** The atoms of every literal, over atoms 0 .. numAtoms - 1. */
  datatype Problem = Problem(atomSets: seq<set<nat>>, numAtoms: nat) {

    ghost predicate Valid() {
      && (forall l, a | 0 <= l < |atomSets| && a in atomSets[l] :: a < numAtoms)
      && forall l, m | 0 <= l < m < |atomSets| :: atomSets[l] != atomSets[m]
    }

    /** The literals of ls that contain all the atoms. */
    function Containing(atoms: set<nat>, ls: set<nat>): (r: set<nat>)
      requires forall l | l in ls :: l < |atomSets|
    {
      set l | l in ls && atoms <= atomSets[l]
    }
  }

  /** The order in which the mergeable set of a node is walked: any order, but
      the same as long as the set does not change. */
  type Order = (nat, set<nat>) -> seq<nat>

  ghost predicate Enumerates(order: Order) {
    forall i, s :: var e := order(i, s);
      (forall j :: j in e <==> j in s) && forall x, y | 0 <= x < y < |e| :: e[x] != e[y]
  }

  function Shared(s: State, i: nat, j: nat): (n: nat)
    requires i < |s.nodes| && j < |s.nodes|
  {
    |s.nodes[j].literalIds * s.nodes[i].literalIds|
  }

  // ---------------------------------------------------------------------
  // Invariant of the loop
  // ---------------------------------------------------------------------

  ghost predicate NodeOk(prob: Problem, s: State, i: nat)
    requires i < |s.nodes| && prob.Valid() && forall l | l in s.remaining :: l < |prob.atomSets|
  {
    var n := s.nodes[i];
    && n.atoms != {}
    && (i < prob.numAtoms ==> n.atoms == {i})
    && (i >= prob.numAtoms ==>
          && 0 <= n.left < i && 0 <= n.right < i
          && n.atoms == s.nodes[n.left].atoms + s.nodes[n.right].atoms)
    && n.literalIds == prob.Containing(n.atoms, s.remaining)
    && (forall j: nat :: j in n.mergeable <==>
          j < |s.nodes| && j != i && n.atoms !! s.nodes[j].atoms && (i < j || (i < prob.numAtoms && j < prob.numAtoms)))
    && (n.literal != -1 ==> 0 <= n.literal < |prob.atomSets| && n.atoms == prob.atomSets[n.literal])
  }

  /** Every literal with an atom is either still to be placed or placed at one node. */
  ghost predicate Placed(prob: Problem, s: State, l: nat) {
    exists i :: 0 <= i < |s.nodes| && s.nodes[i].literal == l
  }

  ghost predicate Inv(prob: Problem, s: State) {
    && prob.Valid() && prob.numAtoms <= |s.nodes|
    && (forall l | l in s.remaining :: l < |prob.atomSets| && |prob.atomSets[l]| >= 2)
    && (forall i | 0 <= i < |s.nodes| :: NodeOk(prob, s, i))
    && (forall l | 0 <= l < |prob.atomSets| && prob.atomSets[l] != {} :: l in s.remaining <==> !Placed(prob, s, l))
    && forall i, j | 0 <= i < j < |s.nodes| && s.nodes[i].literal >= 0 :: s.nodes[i].literal != s.nodes[j].literal
  }

  // ---------------------------------------------------------------------
  // One iteration
  // ---------------------------------------------------------------------

  /** The pair the double loop ends with: no pair shares more literals, first is
      the least first node that reaches the maximum, and second is the first in
      that node's order that does. */
  ghost predicate IsBest(s: State, order: Order, first: nat, second: nat, shared: nat) {
    && first < |s.nodes| && second < |s.nodes| && second in s.nodes[first].mergeable
    && Shared(s, first, second) == shared > 0
    && (forall i, j | 0 <= i < |s.nodes| && j in s.nodes[i].mergeable && j < |s.nodes| ::
          Shared(s, i, j) <= shared && (i < first ==> Shared(s, i, j) < shared))
    && FirstInOrder(s, first, order(first, s.nodes[first].mergeable), second, shared)
  }

  ghost predicate FirstInOrder(s: State, first: nat, e: seq<nat>, second: nat, shared: nat)
    requires first < |s.nodes|
  {
    exists k :: 0 <= k < |e| && e[k] == second
                && forall m | 0 <= m < k && e[m] < |s.nodes| :: Shared(s, first, e[m]) < shared
  }

  /** The literal that the union of the atoms completes, -1 if none. */
  ghost function Completed(prob: Problem, candidates: set<nat>, atoms: set<nat>): (l: int)
    requires forall l | l in candidates :: l < |prob.atomSets|
    ensures l != -1 ==> l >= 0 && l in candidates && prob.atomSets[l] == atoms
    ensures l == -1 ==> forall m | m in candidates :: prob.atomSets[m] != atoms
  {
    if exists m: nat :: m in candidates && prob.atomSets[m] == atoms then
      var m: nat :| m in candidates && prob.atomSets[m] == atoms; m
    else -1
  }

  ghost predicate InRange(prob: Problem, s: State) {
    forall i, l | 0 <= i < |s.nodes| && l in s.nodes[i].literalIds :: l < |prob.atomSets|
  }

  ghost function CompletedBy(prob: Problem, s: State, p: nat, q: nat): (l: int)
    requires p < |s.nodes| && q < |s.nodes| && InRange(prob, s)
  {
    Completed(prob, s.nodes[p].literalIds * s.nodes[q].literalIds, s.nodes[p].atoms + s.nodes[q].atoms)
  }

  function Erased(l: int): (ls: set<nat>) {
    if l < 0 then {} else {l}
  }

  /** An old node after p and q have been merged into node |s.nodes|. */
  function Updated(s: State, p: nat, q: nat, done: int, i: nat): (n: PredicateInfo)
    requires p < |s.nodes| && q < |s.nodes| && i < |s.nodes|
  {
    var n := s.nodes[i];
    n.(literalIds := n.literalIds - Erased(done),
       mergeable := if i != p && i != q && (s.nodes[p].atoms + s.nodes[q].atoms) !! n.atoms
                    then n.mergeable + {|s.nodes|} else n.mergeable,
       referenceCount := if i == p || i == q then n.referenceCount + 1 else n.referenceCount)
  }

  /** The state after merging p and q. */
  function Merged(s: State, p: nat, q: nat, done: int): (r: State)
    requires p < |s.nodes| && q < |s.nodes|
    ensures r.remaining <= s.remaining
  {
    State(seq(|s.nodes|, i requires 0 <= i < |s.nodes| => Updated(s, p, q, done, i))
          + [PredicateInfo(s.nodes[p].atoms + s.nodes[q].atoms,
                           s.nodes[p].literalIds * s.nodes[q].literalIds - Erased(done), {}, done, p, q, 0)],
          s.remaining - Erased(done))
  }

  ghost predicate Step(prob: Problem, order: Order, s: State, s': State) {
    InRange(prob, s) &&
    exists p, q, shared :: IsBest(s, order, p, q, shared) && s' == Merged(s, p, q, CompletedBy(prob, s, p, q))
  }

  // ---------------------------------------------------------------------
  // The invariant is kept
  // ---------------------------------------------------------------------

  lemma InvInRange(prob: Problem, s: State)
    requires Inv(prob, s)
    ensures InRange(prob, s)
  {
    forall i, l | 0 <= i < |s.nodes| && l in s.nodes[i].literalIds
      ensures l < |prob.atomSets|
    {
      assert NodeOk(prob, s, i);
    }
  }

  lemma OldNodeOk(prob: Problem, s: State, p: nat, q: nat, i: nat)
    requires Inv(prob, s) && InRange(prob, s) && p < |s.nodes| && q < |s.nodes| && q in s.nodes[p].mergeable
             && i < |s.nodes|
    ensures NodeOk(prob, Merged(s, p, q, CompletedBy(prob, s, p, q)), i)
  {
    var done := CompletedBy(prob, s, p, q);
    var s' := Merged(s, p, q, done);
    assert NodeOk(prob, s, i);
    assert forall j | 0 <= j < |s.nodes| :: s'.nodes[j].atoms == s.nodes[j].atoms;
    MergeableAfter(prob, s, p, q, done, i);
    hide CompletedBy;
    assert s'.nodes[i].literalIds == s.nodes[i].literalIds - Erased(done);
    assert prob.Containing(s.nodes[i].atoms, s.remaining - Erased(done))
           == prob.Containing(s.nodes[i].atoms, s.remaining) - Erased(done);
  }

  lemma MergeableAfter(prob: Problem, s: State, p: nat, q: nat, done: int, i: nat)
    requires Inv(prob, s) && p < |s.nodes| && q < |s.nodes| && q in s.nodes[p].mergeable && i < |s.nodes|
    ensures var s' := Merged(s, p, q, done);
            forall j: nat :: j in s'.nodes[i].mergeable <==>
              j < |s'.nodes| && j != i && s'.nodes[i].atoms !! s'.nodes[j].atoms
              && (i < j || (i < prob.numAtoms && j < prob.numAtoms))
  {
    assert NodeOk(prob, s, i) && NodeOk(prob, s, p) && NodeOk(prob, s, q);
    assert prob.numAtoms <= |s.nodes|;
    hide Inv;
    var s' := Merged(s, p, q, done);
    assert s'.nodes[|s.nodes|].atoms == s.nodes[p].atoms + s.nodes[q].atoms;
    assert forall j | 0 <= j < |s.nodes| :: s'.nodes[j].atoms == s.nodes[j].atoms;
  }

  lemma NewNodeOk(prob: Problem, s: State, p: nat, q: nat)
    requires Inv(prob, s) && InRange(prob, s) && p < |s.nodes| && q < |s.nodes| && q in s.nodes[p].mergeable
    ensures NodeOk(prob, Merged(s, p, q, CompletedBy(prob, s, p, q)), |s.nodes|)
  {
    assert NodeOk(prob, s, p) && NodeOk(prob, s, q);
    var done := CompletedBy(prob, s, p, q);
    var s' := Merged(s, p, q, done);
    var n := s'.nodes[|s.nodes|];
    assert n.literalIds == prob.Containing(n.atoms, s'.remaining);
  }

  lemma StepKeepsInv(prob: Problem, s: State, p: nat, q: nat)
    requires Inv(prob, s) && InRange(prob, s) && p < |s.nodes| && q < |s.nodes| && q in s.nodes[p].mergeable
    ensures Inv(prob, Merged(s, p, q, CompletedBy(prob, s, p, q)))
  {
    var s' := Merged(s, p, q, CompletedBy(prob, s, p, q));
    assert |s'.nodes| == |s.nodes| + 1 && s'.remaining <= s.remaining;
    LiteralsAfter(prob, s, p, q);
    hide NodeOk, Merged, Placed, CompletedBy;
    forall i | 0 <= i < |s'.nodes|
      ensures NodeOk(prob, s', i)
    {
      if i < |s.nodes| { OldNodeOk(prob, s, p, q, i); } else { NewNodeOk(prob, s, p, q); }
    }
  }

  /** Every literal is still placed once or remains. */
  lemma LiteralsAfter(prob: Problem, s: State, p: nat, q: nat)
    requires Inv(prob, s) && InRange(prob, s) && p < |s.nodes| && q < |s.nodes| && q in s.nodes[p].mergeable
    ensures var s' := Merged(s, p, q, CompletedBy(prob, s, p, q));
            && (forall l | 0 <= l < |prob.atomSets| && prob.atomSets[l] != {} ::
                  l in s'.remaining <==> !Placed(prob, s', l))
            && forall i, j | 0 <= i < j < |s'.nodes| && s'.nodes[i].literal >= 0 ::
                 s'.nodes[i].literal != s'.nodes[j].literal
  {
    var done := CompletedBy(prob, s, p, q);
    var s' := Merged(s, p, q, done);
    assert NodeOk(prob, s, p) && NodeOk(prob, s, q);
    hide NodeOk, CompletedBy;
    assert done >= 0 ==> done in s.remaining && !Placed(prob, s, done);
    forall l | 0 <= l < |prob.atomSets| && prob.atomSets[l] != {}
      ensures l in s'.remaining <==> !Placed(prob, s', l)
    {
      PlacedAfter(prob, s, s', l);
    }
    forall i, j | 0 <= i < j < |s'.nodes| && s'.nodes[i].literal >= 0
      ensures s'.nodes[i].literal != s'.nodes[j].literal
    {
      assert s'.nodes[i].literal == s.nodes[i].literal;
    }
  }

  lemma PlacedAfter(prob: Problem, s: State, s': State, l: nat)
    requires |s'.nodes| == |s.nodes| + 1
    requires forall i | 0 <= i < |s.nodes| :: s'.nodes[i].literal == s.nodes[i].literal
    ensures Placed(prob, s', l) <==> Placed(prob, s, l) || s'.nodes[|s.nodes|].literal == l
  {
    if Placed(prob, s, l) {
      var i :| 0 <= i < |s.nodes| && s.nodes[i].literal == l;
      assert s'.nodes[i].literal == l;
    }
  }

  // ---------------------------------------------------------------------
  // Every iteration finds a pair, and when the loop ends
  // ---------------------------------------------------------------------

  /** The DCHECK: two atoms of a remaining literal are a mergeable pair sharing it. */
  lemma SomePairShares(prob: Problem, s: State, l: nat) returns (i: nat, j: nat)
    requires Inv(prob, s) && l in s.remaining
    ensures i < |s.nodes| && j < |s.nodes| && j in s.nodes[i].mergeable && Shared(s, i, j) > 0
    ensures i < prob.numAtoms && j < prob.numAtoms && i in prob.atomSets[l] && j in prob.atomSets[l] && i != j
  {
    var atoms := prob.atomSets[l];
    i := Member(atoms);
    assert |atoms - {i}| == |atoms| - 1;
    j := Member(atoms - {i});
    assert NodeOk(prob, s, i) && NodeOk(prob, s, j);
    CardPositive(s.nodes[j].literalIds * s.nodes[i].literalIds, l);
  }

  /** Merging disjoint non-empty nodes of a two-atom literal completes it. */
  lemma TwoAtomsComplete(prob: Problem, s: State, p: nat, q: nat)
    requires Inv(prob, s) && InRange(prob, s) && p < |s.nodes| && q < |s.nodes| && q in s.nodes[p].mergeable
             && Shared(s, p, q) > 0
    requires forall l | l in s.remaining :: |prob.atomSets[l]| <= 2
    ensures CompletedBy(prob, s, p, q) >= 0
  {
    assert NodeOk(prob, s, p) && NodeOk(prob, s, q);
    var ids := s.nodes[p].literalIds * s.nodes[q].literalIds;
    assert s.nodes[q].literalIds * s.nodes[p].literalIds == ids;
    var l := Member(ids);
    var a, b := s.nodes[p].atoms, s.nodes[q].atoms;
    assert a + b <= prob.atomSets[l] && |a + b| == |a| + |b| >= 2;
    SubsetOfSameSize(a + b, prob.atomSets[l]);
  }

  /** A merge that completes nothing adds a node and changes no literal set. */
  lemma StuckMerge(prob: Problem, s: State, p: nat, q: nat)
    requires Inv(prob, s) && p < |s.nodes| && q < |s.nodes| && q in s.nodes[p].mergeable
    ensures var s' := Merged(s, p, q, -1);
            && |s'.nodes| == |s.nodes| + 1
            && (forall i | 0 <= i < |s.nodes| :: s'.nodes[i].literalIds == s.nodes[i].literalIds)
            && s'.nodes[|s.nodes|].literalIds == s.nodes[p].literalIds * s.nodes[q].literalIds
            && s'.nodes[|s.nodes|].mergeable == {}
            && s'.nodes[p].mergeable == s.nodes[p].mergeable
            && (forall i, j | 0 <= i < |s.nodes| && j in s'.nodes[i].mergeable ::
                  (j in s.nodes[i].mergeable && j < |s.nodes|)
                  || (j == |s.nodes| && (s.nodes[p].atoms + s.nodes[q].atoms) !! s.nodes[i].atoms))
  {
    assert forall i | 0 <= i < |s.nodes| :: s.nodes[i].literalIds - Erased(-1) == s.nodes[i].literalIds;
    var both := s.nodes[p].literalIds * s.nodes[q].literalIds;
    assert both - Erased(-1) == both;
    forall i, j | 0 <= i < |s.nodes| && j in s.nodes[i].mergeable
      ensures j < |s.nodes|
    {
      assert NodeOk(prob, s, i);
    }
  }

  /** Adding a node whose pairs share no more leaves the best pair the best. */
  lemma BestIsKept(order: Order, s: State, s': State, p: nat, q: nat, shared: nat)
    requires IsBest(s, order, p, q, shared)
    requires |s'.nodes| == |s.nodes| + 1 && s'.nodes[p].mergeable == s.nodes[p].mergeable
    requires forall i | 0 <= i < |s.nodes| :: s'.nodes[i].literalIds == s.nodes[i].literalIds
    requires forall i, j | 0 <= i < |s'.nodes| && j in s'.nodes[i].mergeable && j < |s'.nodes| ::
               || (i < |s.nodes| && j < |s.nodes| && j in s.nodes[i].mergeable)
               || (Shared(s', i, j) <= shared && (i < p ==> Shared(s', i, j) < shared))
    requires forall x | x in order(p, s.nodes[p].mergeable) :: x < |s.nodes|
    ensures IsBest(s', order, p, q, shared)
  {
    forall i, j | 0 <= i < |s'.nodes| && j in s'.nodes[i].mergeable && j < |s'.nodes|
      ensures Shared(s', i, j) <= shared && (i < p ==> Shared(s', i, j) < shared)
    {
      if i < |s.nodes| && j < |s.nodes| && j in s.nodes[i].mergeable {
        assert Shared(s', i, j) == Shared(s, i, j);
      }
    }
    var e := order(p, s.nodes[p].mergeable);
    var k :| 0 <= k < |e| && e[k] == q && forall m | 0 <= m < k && e[m] < |s.nodes| :: Shared(s, p, e[m]) < shared;
    forall m | 0 <= m < k && e[m] < |s'.nodes|
      ensures Shared(s', p, e[m]) < shared
    {
      assert e[m] in e;
      assert Shared(s', p, e[m]) == Shared(s, p, e[m]);
    }
    assert FirstInOrder(s', p, e, q, shared);
  }

  /** An iteration that completes nothing leaves the same pair the best one. */
  lemma StuckPairStaysBest(prob: Problem, order: Order, s: State, p: nat, q: nat, shared: nat)
    requires Inv(prob, s) && Enumerates(order) && IsBest(s, order, p, q, shared)
    ensures IsBest(Merged(s, p, q, -1), order, p, q, shared)
  {
    var s' := Merged(s, p, q, -1);
    StuckMerge(prob, s, p, q);
    forall x | x in order(p, s.nodes[p].mergeable)
      ensures x < |s.nodes|
    {
      assert x in s.nodes[p].mergeable && NodeOk(prob, s, p);
    }
    hide Inv, NodeOk, Merged, Enumerates;
    forall i, j | 0 <= i < |s'.nodes| && j in s'.nodes[i].mergeable && j < |s'.nodes|
      ensures || (i < |s.nodes| && j < |s.nodes| && j in s.nodes[i].mergeable)
              || (Shared(s', i, j) <= shared && (i < p ==> Shared(s', i, j) < shared))
    {
      assert i != |s.nodes|;
      if j == |s.nodes| {
        NewPairSharesNoMore(prob, s, p, q, shared, i);
      }
    }
    BestIsKept(order, s, s', p, q, shared);
  }

  /** A pair with the new node shares at most what p and q share, and strictly
      less when its first node comes before p. */
  lemma NewPairSharesNoMore(prob: Problem, s: State, p: nat, q: nat, shared: nat, i: nat)
    requires Inv(prob, s) && p < |s.nodes| && q < |s.nodes| && i < |s.nodes| && q in s.nodes[p].mergeable
    requires Shared(s, p, q) == shared
    requires forall i, j | 0 <= i < |s.nodes| && j in s.nodes[i].mergeable && j < |s.nodes| ::
               i < p ==> Shared(s, i, j) < shared
    requires (s.nodes[p].atoms + s.nodes[q].atoms) !! s.nodes[i].atoms
    ensures var both := s.nodes[p].literalIds * s.nodes[q].literalIds;
            |both * s.nodes[i].literalIds| <= shared && (i < p ==> |both * s.nodes[i].literalIds| < shared)
  {
    var both := s.nodes[p].literalIds * s.nodes[q].literalIds;
    var three := both * s.nodes[i].literalIds;
    assert s.nodes[q].literalIds * s.nodes[p].literalIds == both;
    SubsetCard(three, both);
    if i < p {
      assert NodeOk(prob, s, i) && NodeOk(prob, s, p);
      assert p in s.nodes[i].mergeable;
      SubsetCard(three, s.nodes[p].literalIds * s.nodes[i].literalIds);
    }
  }


  // ---------------------------------------------------------------------
  // Whole runs of the loop
  // ---------------------------------------------------------------------

  ghost predicate LoopRun(prob: Problem, order: Order, states: seq<State>) {
    && |states| > 0
    && forall i | 0 <= i < |states| - 1 :: states[i].remaining != {} && Step(prob, order, states[i], states[i + 1])
  }

  ghost predicate Finishes(prob: Problem, order: Order, s: State) {
    exists states: seq<State> ::
      |states| > 0 && LoopRun(prob, order, states) && states[0] == s && states[|states| - 1].remaining == {}
  }

  /** The iteration is determined by the state and the iteration order. */
  lemma BestIsUnique(order: Order, s: State, p: nat, q: nat, m: nat, p': nat, q': nat, m': nat)
    requires Enumerates(order) && IsBest(s, order, p, q, m) && IsBest(s, order, p', q', m')
    ensures p == p' && q == q' && m == m'
  {
    assert q in s.nodes[p].mergeable && q' in s.nodes[p'].mergeable;
    var e := order(p, s.nodes[p].mergeable);
    var k :| 0 <= k < |e| && e[k] == q && forall x | 0 <= x < k && e[x] < |s.nodes| :: Shared(s, p, e[x]) < m;
    var k' :| 0 <= k' < |e| && e[k'] == q' && forall x | 0 <= x < k' && e[x] < |s.nodes| :: Shared(s, p, e[x]) < m;
    assert k == k' by {
      assert Shared(s, p, e[k]) == m && Shared(s, p, e[k']) == m;
    }
  }

  ghost predicate Stuck(prob: Problem, order: Order, s: State, p: nat, q: nat, shared: nat) {
    Inv(prob, s) && InRange(prob, s) && IsBest(s, order, p, q, shared) && CompletedBy(prob, s, p, q) == -1
  }

  lemma StuckStaysStuck(prob: Problem, order: Order, s: State, s': State, p: nat, q: nat, shared: nat)
    requires Enumerates(order) && Stuck(prob, order, s, p, q, shared) && Step(prob, order, s, s')
    ensures Stuck(prob, order, s', p, q, shared) && s'.remaining == s.remaining
  {
    OnlyThisStep(prob, order, s, s', p, q, shared);
    StepKeepsInv(prob, s, p, q);
    InvInRange(prob, s');
    StuckPairStaysBest(prob, order, s, p, q, shared);
    StuckMerge(prob, s, p, q);
    hide Inv, IsBest, InRange, Enumerates;
    assert s'.nodes[p].atoms == s.nodes[p].atoms && s'.nodes[q].atoms == s.nodes[q].atoms;
  }

  lemma OnlyThisStep(prob: Problem, order: Order, s: State, s': State, p: nat, q: nat, shared: nat)
    requires Enumerates(order) && InRange(prob, s) && IsBest(s, order, p, q, shared) && Step(prob, order, s, s')
    ensures p < |s.nodes| && q < |s.nodes| && s' == Merged(s, p, q, CompletedBy(prob, s, p, q))
  {
    var p', q', m' :| IsBest(s, order, p', q', m') && s' == Merged(s, p', q', CompletedBy(prob, s, p', q'));
    BestIsUnique(order, s, p, q, shared, p', q', m');
  }

  /** Once an iteration completes no literal, none ever will: the loop runs for ever. */
  lemma {:induction false} NeverFinishes(prob: Problem, order: Order, states: seq<State>, p: nat, q: nat, shared: nat)
    requires Enumerates(order) && LoopRun(prob, order, states) && Stuck(prob, order, states[0], p, q, shared)
    ensures states[|states| - 1].remaining == states[0].remaining
    decreases |states|
  {
    if |states| > 1 {
      StuckStaysStuck(prob, order, states[0], states[1], p, q, shared);
      var rest := states[1..];
      forall i | 0 <= i < |rest| - 1
        ensures rest[i].remaining != {} && Step(prob, order, rest[i], rest[i + 1])
      {
        var k := i + 1;
        assert states[k].remaining != {} && Step(prob, order, states[k], states[k + 1]);
      }
      NeverFinishes(prob, order, rest, p, q, shared);
    }
  }

  lemma BestExists(prob: Problem, order: Order, s: State) returns (p: nat, q: nat, shared: nat)
    requires Inv(prob, s) && Enumerates(order) && s.remaining != {}
    ensures IsBest(s, order, p, q, shared)
  {
    var l := Member(s.remaining);
    var i, j := SomePairShares(prob, s, l);
    p, shared := FirstMaximum(s, i, j);
    q := FirstReaching(s, p, order(p, s.nodes[p].mergeable), shared);
  }

  /** The greatest number of shared literals and the first node that reaches it. */
  lemma FirstMaximum(s: State, i: nat, j: nat) returns (p: nat, shared: nat)
    requires i < |s.nodes| && j < |s.nodes| && j in s.nodes[i].mergeable && Shared(s, i, j) > 0
    ensures p < |s.nodes| && shared > 0
    ensures exists y :: y in s.nodes[p].mergeable && y < |s.nodes| && Shared(s, p, y) == shared
    ensures forall x, y | 0 <= x < |s.nodes| && y in s.nodes[x].mergeable && y < |s.nodes| ::
              Shared(s, x, y) <= shared && (x < p ==> Shared(s, x, y) < shared)
  {
    hide Shared;
    var n := |s.nodes|;
    var values := set x, y | 0 <= x < n && y in s.nodes[x].mergeable && y < n :: Shared(s, x, y);
    assert Shared(s, i, j) in values;
    shared := MaxOf(values);
    var firsts: set<nat> := set x, y | 0 <= x < n && y in s.nodes[x].mergeable && y < n && Shared(s, x, y) == shared ::
      x;
    var x0, y0 :| 0 <= x0 < n && y0 in s.nodes[x0].mergeable && y0 < n && Shared(s, x0, y0) == shared;
    assert x0 in firsts;
    p := MinOf(firsts);
    forall x, y | 0 <= x < n && y in s.nodes[x].mergeable && y < n
      ensures Shared(s, x, y) <= shared && (x < p ==> Shared(s, x, y) < shared)
    {
      assert Shared(s, x, y) in values;
      assert Shared(s, x, y) == shared ==> x in firsts;
    }
  }

  lemma FirstReaching(s: State, p: nat, e: seq<nat>, shared: nat) returns (q: nat)
    requires p < |s.nodes|
    requires exists y :: y in e && y < |s.nodes| && Shared(s, p, y) == shared
    requires forall y | y in e && y < |s.nodes| :: Shared(s, p, y) <= shared
    ensures q in e && q < |s.nodes| && Shared(s, p, q) == shared && FirstInOrder(s, p, e, q, shared)
  {
    var ks: set<nat> := set k | 0 <= k < |e| && e[k] < |s.nodes| && Shared(s, p, e[k]) == shared;
    assert ks != {} by {
      var y :| y in e && y < |s.nodes| && Shared(s, p, y) == shared;
      var k: nat :| k < |e| && e[k] == y;
      assert k in ks;
    }
    var k := MinOf(ks);
    q := e[k];
    forall m | 0 <= m < k && e[m] < |s.nodes|
      ensures Shared(s, p, e[m]) < shared
    {
      assert m !in ks && e[m] in e;
    }
  }

  // ---------------------------------------------------------------------
  // Exactly which inputs terminate
  // ---------------------------------------------------------------------

  lemma StepThenRun(prob: Problem, order: Order, s: State, states: seq<State>)
    requires LoopRun(prob, order, states) && s.remaining != {} && Step(prob, order, s, states[0])
    ensures LoopRun(prob, order, [s] + states)
  {
    hide Step;
    var longer := [s] + states;
    forall i | 0 <= i < |longer| - 1
      ensures longer[i].remaining != {} && Step(prob, order, longer[i], longer[i + 1])
    {
      if i > 0 {
        var k := i - 1;
        assert states[k].remaining != {} && Step(prob, order, states[k], states[k + 1]);
      }
    }
  }

  lemma SomeStep(prob: Problem, order: Order, s: State) returns (s': State, done: int)
    requires Inv(prob, s) && Enumerates(order) && s.remaining != {}
    ensures Step(prob, order, s, s') && Inv(prob, s') && s'.remaining <= s.remaining
    ensures done == -1 || |s'.remaining| < |s.remaining|
    ensures (forall l | l in s.remaining :: |prob.atomSets[l]| <= 2) ==> done != -1
  {
    var p, q, shared := BestExists(prob, order, s);
    InvInRange(prob, s);
    hide Inv, NodeOk, InRange, Enumerates, CompletedBy, Merged;
    if forall l | l in s.remaining :: |prob.atomSets[l]| <= 2 {
      TwoAtomsComplete(prob, s, p, q);
    }
    done := CompletedBy(prob, s, p, q);
    s' := Merged(s, p, q, done);
    StepKeepsInv(prob, s, p, q);
    CompletionShrinks(prob, s, p, q);
  }

  lemma CompletionShrinks(prob: Problem, s: State, p: nat, q: nat)
    requires Inv(prob, s) && InRange(prob, s) && p < |s.nodes| && q < |s.nodes|
    ensures var done := CompletedBy(prob, s, p, q);
            done == -1 || |Merged(s, p, q, done).remaining| < |s.remaining|
  {
    var done := CompletedBy(prob, s, p, q);
    if done != -1 {
      assert NodeOk(prob, s, p);
      assert done in s.remaining;
      assert s.remaining == (s.remaining - {done as nat}) + {done as nat};
    }
  }

  /** With at most two atoms per literal every order finishes: each iteration
      completes a literal, so the number of remaining literals decreases. */
  lemma {:induction false} TwoAtomsFinish(prob: Problem, order: Order, s: State)
    requires Inv(prob, s) && Enumerates(order)
    requires forall l | l in s.remaining :: |prob.atomSets[l]| <= 2
    ensures Finishes(prob, order, s)
    decreases |s.remaining|
  {
    hide Step, IsBest, Enumerates, Inv, Finishes;
    if s.remaining == {} {
      FinishesNow(prob, order, s);
    } else {
      var s', done := SomeStep(prob, order, s);
      TwoAtomsFinish(prob, order, s');
      FinishesAfterStep(prob, order, s, s');
    }
  }

  lemma FinishesNow(prob: Problem, order: Order, s: State)
    requires s.remaining == {}
    ensures Finishes(prob, order, s)
  {
    assert LoopRun(prob, order, [s]);
  }

  lemma FinishesAfterStep(prob: Problem, order: Order, s: State, s': State)
    requires Finishes(prob, order, s') && s.remaining != {} && Step(prob, order, s, s')
    ensures Finishes(prob, order, s)
  {
    hide Step, LoopRun;
    var states: seq<State> :| |states| > 0 && LoopRun(prob, order, states) && states[0] == s'
    && states[|states| - 1].remaining == {};
    StepThenRun(prob, order, s, states);
    var longer := [s] + states;
    assert longer[0] == s && longer[|longer| - 1] == states[|states| - 1];
  }

  ghost predicate Ascending(order: Order) {
    forall i, s, x, y :: 0 <= x < y < |order(i, s)| ==> order(i, s)[x] < order(i, s)[y]
  }

  /** If mergeable sets are walked in ascending order, a literal with three or
      more atoms is never completed: two of its atoms are merged again instead. */
  lemma AscendingCompletesOnlyPairs(prob: Problem, order: Order, s: State, p: nat, q: nat, shared: nat)
    requires Inv(prob, s) && InRange(prob, s) && Enumerates(order) && Ascending(order) && IsBest(s, order, p, q, shared)
    ensures CompletedBy(prob, s, p, q) != -1 ==> |prob.atomSets[CompletedBy(prob, s, p, q)]| <= 2
  {
    var l := CompletedBy(prob, s, p, q);
    if l != -1 {
      var atoms := prob.atomSets[l];
      assert NodeOk(prob, s, p) && NodeOk(prob, s, q);
      var a0 := MinOf(atoms);
      var b := Member(atoms - {a0});
      AtomPairSharesAsMuch(prob, s, p, q, a0, b);
      assert p <= a0;
      assert s.nodes[p].atoms == {p} && p == a0;
      AscendingTakesLeast(order, s, p, q, b, shared);
      assert s.nodes[q].atoms == {q};
    }
  }

  lemma AscendingTakesLeast(order: Order, s: State, p: nat, q: nat, b: nat, shared: nat)
    requires Enumerates(order) && Ascending(order) && IsBest(s, order, p, q, shared)
    requires b < |s.nodes| && b in s.nodes[p].mergeable && Shared(s, p, b) >= shared
    ensures q <= b
  {
    var e := order(p, s.nodes[p].mergeable);
    var k :| 0 <= k < |e| && e[k] == q && forall m | 0 <= m < k && e[m] < |s.nodes| :: Shared(s, p, e[m]) < shared;
    assert b in e;
    var m :| 0 <= m < |e| && e[m] == b;
    assert k <= m;
  }

  /** Any two atoms of a completed literal share at least the literals that the
      completing pair shares. */
  lemma AtomPairSharesAsMuch(prob: Problem, s: State, p: nat, q: nat, a: nat, b: nat)
    requires Inv(prob, s) && p < |s.nodes| && q < |s.nodes|
    requires a in s.nodes[p].atoms + s.nodes[q].atoms && b in s.nodes[p].atoms + s.nodes[q].atoms && a != b
    requires a < prob.numAtoms && b < prob.numAtoms
    ensures b in s.nodes[a].mergeable && Shared(s, a, b) >= Shared(s, p, q)
  {
    assert NodeOk(prob, s, p) && NodeOk(prob, s, q) && NodeOk(prob, s, a) && NodeOk(prob, s, b);
    SubsetCard(s.nodes[q].literalIds * s.nodes[p].literalIds, s.nodes[b].literalIds * s.nodes[a].literalIds);
  }

  /** Along every run of an ascending order a literal with three or more atoms remains. */
  lemma {:induction false} ThreeAtomsRemain(prob: Problem, order: Order, states: seq<State>, l: nat)
    requires Enumerates(order) && Ascending(order) && LoopRun(prob, order, states) && Inv(prob, states[0])
    requires l in states[0].remaining && |prob.atomSets[l]| >= 3
    ensures l in states[|states| - 1].remaining
    decreases |states|
  {
    if |states| > 1 {
      var s := states[0];
      assert Step(prob, order, s, states[1]);
      var p, q, shared :| IsBest(s, order, p, q, shared) && states[1] == Merged(s, p, q, CompletedBy(prob, s, p, q));
      StepKeepsInv(prob, s, p, q);
      AscendingCompletesOnlyPairs(prob, order, s, p, q, shared);
      assert l in states[1].remaining;
      var rest := states[1..];
      forall i | 0 <= i < |rest| - 1
        ensures rest[i].remaining != {} && Step(prob, order, rest[i], rest[i + 1])
      {
        var k := i + 1;
        assert states[k].remaining != {} && Step(prob, order, states[k], states[k + 1]);
      }
      ThreeAtomsRemain(prob, order, rest, l);
    }
  }

  ghost function Sorted(s: set<nat>): (e: seq<nat>)
    ensures forall j :: j in e <==> j in s
    ensures forall x, y | 0 <= x < y < |e| :: e[x] < e[y]
  {
    if s == {} then []
    else
      ghost var m := Min(s);
      [m] + Sorted(s - {m})
  }

  ghost function Min(s: set<nat>): (m: nat)
    requires s != {}
    ensures m in s && forall x | x in s :: m <= x
  {
    assert exists m :: m in s && forall x | x in s :: m <= x by {
      ghost var m := MinOf(s);
    }
    var m: nat :| m in s && forall x | x in s :: m <= x;
    m
  }

  /** The loop ends whatever order the unordered sets are walked in exactly when
      no literal has more than two atoms. */
  lemma TerminationIff(prob: Problem, s: State)
    requires Inv(prob, s)
    ensures (forall order | Enumerates(order) :: Finishes(prob, order, s))
            <==> (forall l | l in s.remaining :: |prob.atomSets[l]| <= 2)
  {
    if forall l | l in s.remaining :: |prob.atomSets[l]| <= 2 {
      forall order | Enumerates(order)
        ensures Finishes(prob, order, s)
      {
        TwoAtomsFinish(prob, order, s);
      }
    }
    if l: nat :| l in s.remaining && |prob.atomSets[l]| > 2 {
      var order: Order := (i: nat, set_: set<nat>) => Sorted(set_);
      assert Enumerates(order) && Ascending(order);
      if Finishes(prob, order, s) {
        var states: seq<State> :| |states| > 0 && LoopRun(prob, order, states) && states[0] == s
        && states[|states| - 1].remaining == {};
        ThreeAtomsRemain(prob, order, states, l);
        assert false;
      }
    }
  }
}
