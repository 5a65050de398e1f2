/** Plans as linked nodes, and their copies (learner/PredicateEvaluationPlan.hpp). */
module PlanClone {
  import opened EvaluationPlan

  /** An atom's node has no children, a conjunction's node has two. */
  class PredicateTreeNode {
    const literal: int
    const leftNode: PredicateTreeNode?
    const rightNode: PredicateTreeNode?
    var positiveSemiBitvector: seq<bool>
    var negativeSemiBitvector: seq<bool>

    constructor (l: int, left: PredicateTreeNode?, right: PredicateTreeNode?)
      ensures literal == l && leftNode == left && rightNode == right
      ensures positiveSemiBitvector == negativeSemiBitvector == []
    {
      literal := l;
      leftNode := left;
      rightNode := right;
      positiveSemiBitvector := [];
      negativeSemiBitvector := [];
    }

    /** A new node over the substitutes of the children. */
    method Clone(substitutionMap: map<PredicateTreeNode, PredicateTreeNode>) returns (copy: PredicateTreeNode)
      requires leftNode != null ==> leftNode in substitutionMap
      requires rightNode != null ==> rightNode in substitutionMap
      ensures fresh(copy) && copy.literal == literal
      ensures copy.leftNode == if leftNode == null then null else substitutionMap[leftNode]
      ensures copy.rightNode == if rightNode == null then null else substitutionMap[rightNode]
      ensures copy.positiveSemiBitvector == copy.negativeSemiBitvector == []
    {
      copy := new PredicateTreeNode(literal,
                                    if leftNode == null then null else substitutionMap[leftNode],
                                    if rightNode == null then null else substitutionMap[rightNode]);
    }
  }

  /** The nodes are distinct objects and link to each other as the plan says. */
  ghost predicate Represents(nodes: seq<PredicateTreeNode>, plan: PredicateEvaluationPlan) {
    && plan.WellFormed() && |nodes| == |plan.nodes|
    && (forall i, j | 0 <= i < j < |nodes| :: nodes[i] != nodes[j])
    && forall i | 0 <= i < |nodes| :: RepresentsNode(nodes, plan, i)
  }

  ghost predicate RepresentsNode(nodes: seq<PredicateTreeNode>, plan: PredicateEvaluationPlan, i: nat)
    requires plan.WellFormed() && |nodes| == |plan.nodes| && i < |nodes|
  {
    && nodes[i].literal == plan.nodes[i].literal
    && if i < plan.numAtoms then nodes[i].leftNode == null && nodes[i].rightNode == null
       else nodes[i].leftNode == nodes[plan.nodes[i].left] && nodes[i].rightNode == nodes[plan.nodes[i].right]
  }

  /** The first n nodes have been copied: node i to copies[i]. */
  ghost predicate Copied(nodes: seq<PredicateTreeNode>, copies: seq<PredicateTreeNode>, n: nat,
                         substitutionMap: map<PredicateTreeNode, PredicateTreeNode>, plan: PredicateEvaluationPlan)
    requires Represents(nodes, plan)
  {
    && n == |copies| <= |nodes|
    && (forall i | 0 <= i < n :: nodes[i] in substitutionMap && substitutionMap[nodes[i]] == copies[i])
    && (forall i, j | 0 <= i < j < n :: copies[i] != copies[j])
    && forall i | 0 <= i < n ::
         && copies[i].literal == plan.nodes[i].literal
         && if i < plan.numAtoms then copies[i].leftNode == null && copies[i].rightNode == null
            else copies[i].leftNode == copies[plan.nodes[i].left] && copies[i].rightNode == copies[plan.nodes[i].right]
  }

  /** The copy is the same DAG, built of new nodes with empty bit vectors. */
  method Clone(treeNodes: seq<PredicateTreeNode>, ghost plan: PredicateEvaluationPlan)
    returns (copies: seq<PredicateTreeNode>)
    requires Represents(treeNodes, plan)
    ensures Represents(copies, plan)
    ensures forall c | c in copies :: fresh(c) && c.positiveSemiBitvector == c.negativeSemiBitvector == []
  {
    copies := [];
    var substitutionMap: map<PredicateTreeNode, PredicateTreeNode> := map[];
    for i := 0 to |treeNodes|
      invariant Copied(treeNodes, copies, i, substitutionMap, plan)
      invariant forall c | c in copies :: fresh(c) && c.positiveSemiBitvector == c.negativeSemiBitvector == []
    {
      assert RepresentsNode(treeNodes, plan, i);
      var copy := treeNodes[i].Clone(substitutionMap);
      assert forall j | 0 <= j < i :: copies[j] in copies;
      assert forall j | 0 <= j < i :: treeNodes[j] != treeNodes[i];
      CopiedNext(treeNodes, copies, i, substitutionMap, plan, copy);
      copies := copies + [copy];
      substitutionMap := substitutionMap[treeNodes[i] := copy];
    }
  }

  lemma CopiedNext(nodes: seq<PredicateTreeNode>, copies: seq<PredicateTreeNode>, i: nat,
                   substitutionMap: map<PredicateTreeNode, PredicateTreeNode>, plan: PredicateEvaluationPlan,
                       copy: PredicateTreeNode)
    requires Represents(nodes, plan) && i < |nodes| && Copied(nodes, copies, i, substitutionMap, plan)
    requires copy.literal == nodes[i].literal && forall j | 0 <= j < i :: copies[j] != copy
    requires nodes[i].leftNode != null
             ==> nodes[i].leftNode in substitutionMap && copy.leftNode == substitutionMap[nodes[i].leftNode]
    requires nodes[i].rightNode != null
             ==> nodes[i].rightNode in substitutionMap && copy.rightNode == substitutionMap[nodes[i].rightNode]
    requires nodes[i].leftNode == null ==> copy.leftNode == null
    requires nodes[i].rightNode == null ==> copy.rightNode == null
    ensures Copied(nodes, copies + [copy], i + 1, substitutionMap[nodes[i] := copy], plan)
  {
    assert RepresentsNode(nodes, plan, i);
  }

  /** Whatever plan a list of nodes is read as, every node stands for the same
      conjunction and carries the same literal. */
  lemma {:induction false} ReadingIsUnique(nodes: seq<PredicateTreeNode>, plan: PredicateEvaluationPlan,
                                           plan': PredicateEvaluationPlan)
    requires Represents(nodes, plan) && Represents(nodes, plan') && plan.numAtoms == plan'.numAtoms
    ensures forall i | 0 <= i < |nodes| ::
              plan.AtomsOf(i) == plan'.AtomsOf(i) && plan.nodes[i].literal == plan'.nodes[i].literal
  {
    var n := 0;
    while n < |nodes|
      invariant n <= |nodes|
      invariant forall i | 0 <= i < n ::
                  plan.AtomsOf(i) == plan'.AtomsOf(i) && plan.nodes[i].literal == plan'.nodes[i].literal
    {
      assert RepresentsNode(nodes, plan, n) && RepresentsNode(nodes, plan', n);
      n := n + 1;
    }
  }
}
