/** The shared-conjunction plan of learner/PredicateEvaluationPlan.hpp and its
    evaluation on one chunk of joined pairs (operations/CountAggregator.cpp). */
module EvaluationPlan {
  import opened BitVectors
  import opened Tallies

  /** One equality between a fact column and a binding column. */
  datatype FilterAtom = FilterAtom(probeColumn: nat, buildColumn: nat)

  /** literal is the literal attached to the node, -1 if none; left and right
      are the conjuncts of a conjunction node. */
  datatype PlanNode = PlanNode(literal: int, left: int, right: int)

  /** The nodes below numAtoms are the atoms; literal is attached to the empty
      conjunction. */
  datatype PredicateEvaluationPlan = PredicateEvaluationPlan(literal: int, nodes: seq<PlanNode>, numAtoms: nat) {

    predicate WellFormed() {
      && numAtoms <= |nodes|
      && forall i | numAtoms <= i < |nodes| :: 0 <= nodes[i].left < i && 0 <= nodes[i].right < i
    }

    /** The atoms a node is the conjunction of. */
    function AtomsOf(i: nat): (a: set<nat>)
      requires WellFormed() && i < |nodes|
    {
      if i < numAtoms then {i} else AtomsOf(nodes[i].left) + AtomsOf(nodes[i].right)
    }

    /** A literal sits either at place 0, the empty conjunction, or at a node. */
    function LiteralAt(place: nat): (l: int)
      requires place <= |nodes|
    {
      if place == 0 then literal else nodes[place - 1].literal
    }

    predicate HasLiteral(place: nat)
      requires place <= |nodes|
    {
      LiteralAt(place) >= 0
    }

    function PlaceAtoms(place: nat): (a: set<nat>)
      requires WellFormed() && place <= |nodes|
    {
      if place == 0 then {} else AtomsOf(place - 1)
    }
  }

  /** Which labels a run counts: both, with the positive bindings first, or one. */
  datatype Run = Both(numPositive: nat) | OnlyPositive | OnlyNegative

  /** What the bits of a chunk are about. */
  datatype Context = Context(atoms: seq<FilterAtom>, probe: seq<seq<int>>, build: seq<seq<int>>, run: Run)

  ghost predicate AtomHolds(ctx: Context, a: nat, p: Pair) {
    && a < |ctx.atoms|
    && ctx.atoms[a].probeColumn < |ctx.probe| && p.fact < |ctx.probe[ctx.atoms[a].probeColumn]|
    && ctx.atoms[a].buildColumn < |ctx.build| && p.binding < |ctx.build[ctx.atoms[a].buildColumn]|
    && ctx.probe[ctx.atoms[a].probeColumn][p.fact] == ctx.build[ctx.atoms[a].buildColumn][p.binding]
  }

  ghost predicate AllHold(ctx: Context, atoms: set<nat>, p: Pair) {
    forall a | a in atoms :: AtomHolds(ctx, a, p)
  }

  ghost function PositiveSel(ctx: Context, atoms: set<nat>): (sel: Selection) {
    p => AllHold(ctx, atoms, p) && (ctx.run.Both? ==> p.binding < ctx.run.numPositive)
  }

  ghost function NegativeSel(ctx: Context, atoms: set<nat>): (sel: Selection) {
    p => AllHold(ctx, atoms, p) && (ctx.run.Both? ==> p.binding >= ctx.run.numPositive)
  }

  /** The bits tell for which pairs of the chunk all the atoms hold. */
  ghost predicate Decides(bits: BitVector, ctx: Context, atoms: set<nat>, pairs: seq<Pair>) {
    && bits.Valid() && bits.size == |pairs|
    && forall k | 0 <= k < |pairs| :: bits.View()[k] == AllHold(ctx, atoms, pairs[k])
  }

  class PlanState {
    const plan: PredicateEvaluationPlan
    var savedPartitionId: int
    /** One tally per place. */
    var positive: seq<Tally>
    var negative: seq<Tally>
    ghost var seen: seq<Pair>

    constructor (p: PredicateEvaluationPlan)
      requires p.WellFormed()
      ensures plan == p && seen == [] && savedPartitionId == -1
      ensures forall ctx :: Counted(ctx, [])
    {
      plan := p;
      savedPartitionId := -1;
      positive := seq(|p.nodes| + 1, _ => Tally(0, 0, []));
      negative := seq(|p.nodes| + 1, _ => Tally(0, 0, []));
      seen := [];
      new;
      assert forall sel: Selection :: Cover([], sel) == {};
    }

    ghost predicate Shaped()
      reads this
    {
      plan.WellFormed() && |positive| == |negative| == |plan.nodes| + 1
    }

    /** The tallies of every literal are right for all pairs seen so far. */
    ghost predicate Counted(ctx: Context, ids: seq<nat>)
      reads this
    {
      && Shaped()
      && forall place | 0 <= place <= |plan.nodes| && plan.HasLiteral(place) :: CountedAt(ctx, ids, place, seen)
    }

    ghost predicate CountedAt(ctx: Context, ids: seq<nat>, place: nat, pairs: seq<Pair>)
      requires Shaped() && place <= |plan.nodes|
      reads this
    {
      && (!ctx.run.OnlyNegative? ==> TallyOk(positive[place], pairs, PositiveSel(ctx, plan.PlaceAtoms(place)), ids))
      && (!ctx.run.OnlyPositive? ==> TallyOk(negative[place], pairs, NegativeSel(ctx, plan.PlaceAtoms(place)), ids))
    }

    /** First chunk of a partition: clears the semi-join vectors of every literal. */
    method ResetSemiVectors(size: nat, ghost ctx: Context, ghost ids: seq<nat>, ghost ids': seq<nat>)
      requires Counted(ctx, ids) && |ids'| == size
      requires forall k | 0 <= k < |seen| :: seen[k].binding !in ids'
      modifies this`positive, this`negative
      ensures Counted(ctx, ids')
    {
      hide TallyOk;
      for place := 0 to |plan.nodes| + 1
        invariant Shaped()
        invariant forall q | 0 <= q < place && plan.HasLiteral(q) :: CountedAt(ctx, ids', q, seen)
        invariant forall q | place <= q <= |plan.nodes| && plan.HasLiteral(q) :: CountedAt(ctx, ids, q, seen)
      {
        if plan.HasLiteral(place) {
          if !ctx.run.OnlyNegative? {
            ResetIsRight(positive[place], seen, PositiveSel(ctx, plan.PlaceAtoms(place)), ids, ids');
          }
          if !ctx.run.OnlyPositive? {
            ResetIsRight(negative[place], seen, NegativeSel(ctx, plan.PlaceAtoms(place)), ids, ids');
          }
          positive := positive[place := Tally(positive[place].bindings, positive[place].covered,
                                              seq(size, _ => false))];
          negative := negative[place := Tally(negative[place].bindings, negative[place].covered,
                                              seq(size, _ => false))];
        }
      }
    }

    /** Adds the chunk to the literal at a place whose atoms the bits decide. */
    method AddChunk(place: nat, rows: seq<nat>, bits: BitVector, positives: BitVector, run: Run,
                    ghost ctx: Context, ghost ids: seq<nat>, ghost pairs: seq<Pair>)
      requires Shaped() && place <= |plan.nodes| && ctx.run == run
      requires CountedAt(ctx, ids, place, seen) && Injective(ids) && Aligned(rows, pairs, ids)
      requires Decides(bits, ctx, plan.PlaceAtoms(place), pairs)
      requires run.Both? ==> LabelsPositives(positives, run.numPositive, pairs)
      modifies this`positive, this`negative
      ensures Shaped() && CountedAt(ctx, ids, place, seen + pairs)
      ensures forall q | 0 <= q <= |plan.nodes| && q != place ::
                positive[q] == old(positive)[q] && negative[q] == old(negative)[q]
    {
      ghost var atoms := plan.PlaceAtoms(place);
      if run.Both? {
        var onPositives := bits.And(positives);
        var t := UpdateTally(rows, onPositives, positive[place], seen, pairs, PositiveSel(ctx, atoms), ids);
        positive := positive[place := t];
        var onNegatives := bits.And(positives.Flip());
        var t' := UpdateTally(rows, onNegatives, negative[place], seen, pairs, NegativeSel(ctx, atoms), ids);
        negative := negative[place := t'];
      } else if run.OnlyPositive? {
        var t := UpdateTally(rows, bits, positive[place], seen, pairs, PositiveSel(ctx, atoms), ids);
        positive := positive[place := t];
      } else {
        var t := UpdateTally(rows, bits, negative[place], seen, pairs, NegativeSel(ctx, atoms), ids);
        negative := negative[place := t];
      }
    }

    /** The literal without filter atoms takes every pair of the chunk. */
    method AddWholeChunk(rows: seq<nat>, positives: BitVector, run: Run,
                         ghost ctx: Context, ghost ids: seq<nat>, ghost pairs: seq<Pair>)
      requires Shaped() && ctx.run == run
      requires CountedAt(ctx, ids, 0, seen) && Injective(ids) && Aligned(rows, pairs, ids)
      requires run.Both? ==> LabelsPositives(positives, run.numPositive, pairs)
      modifies this`positive, this`negative
      ensures Shaped() && CountedAt(ctx, ids, 0, seen + pairs)
      ensures forall q | 0 < q <= |plan.nodes| ::
                positive[q] == old(positive)[q] && negative[q] == old(negative)[q]
    {
      if run.Both? {
        var t := UpdateTally(rows, positives, positive[0], seen, pairs, PositiveSel(ctx, {}), ids);
        positive := positive[0 := t];
        var t' := UpdateTally(rows, positives.Flip(), negative[0], seen, pairs, NegativeSel(ctx, {}), ids);
        negative := negative[0 := t'];
      } else if run.OnlyPositive? {
        var t := UpdateTallyWithNoFilter(rows, positive[0], seen, pairs, PositiveSel(ctx, {}), ids);
        positive := positive[0 := t];
      } else {
        var t := UpdateTallyWithNoFilter(rows, negative[0], seen, pairs, NegativeSel(ctx, {}), ids);
        negative := negative[0 := t];
      }
    }

    /** Fast path for a plan without atoms: one pass over the chunk. */
    method AddPairByPair(rows: seq<nat>, buildTids: seq<nat>, numPositive: nat,
                         ghost ctx: Context, ghost ids: seq<nat>, ghost pairs: seq<Pair>)
      requires Shaped() && ctx.run == Both(numPositive)
      requires CountedAt(ctx, ids, 0, seen) && Injective(ids) && Aligned(rows, pairs, ids)
      requires |buildTids| == |pairs| && forall k | 0 <= k < |pairs| :: pairs[k].binding == buildTids[k]
      modifies this`positive, this`negative
      ensures Shaped() && CountedAt(ctx, ids, 0, seen + pairs)
      ensures forall q | 0 < q <= |plan.nodes| ::
                positive[q] == old(positive)[q] && negative[q] == old(negative)[q]
    {
      hide TallyOk, PositiveSel, NegativeSel, Injective;
      var p, n := positive[0], negative[0];
      ghost var psel, nsel := PositiveSel(ctx, {}), NegativeSel(ctx, {});
      assert seen + pairs[..0] == seen;
      for k := 0 to |rows|
        invariant Shaped() && positive == old(positive) && negative == old(negative) && seen == old(seen)
        invariant TallyOk(p, seen + pairs[..k], psel, ids) && TallyOk(n, seen + pairs[..k], nsel, ids)
      {
        assert seen + pairs[..k + 1] == (seen + pairs[..k]) + [pairs[k]];
        p, n := AddPair(p, n, rows[k], buildTids[k] < numPositive, ctx, seen + pairs[..k], pairs[k], ids);
      }
      assert pairs[..|rows|] == pairs;
      positive, negative := positive[0 := p], negative[0 := n];
    }

    /** One chunk of Execute or ExecuteOnOneLabel: reset when the partition
        changes, then count the chunk for every literal of the plan. */
    method Consume(rows: seq<nat>, buildTids: seq<nat>, bitVectors: seq<BitVector>, partitionId: nat,
                   partitionSize: nat,
                   run: Run, ghost ctx: Context, ghost ids: seq<nat>, ghost ids': seq<nat>, ghost pairs: seq<Pair>)
      requires Counted(ctx, ids) && ctx.run == run
      requires plan.numAtoms == 0 ==> |plan.nodes| == 0
      requires |ids'| == partitionSize && Injective(ids') && Aligned(rows, pairs, ids')
      requires if savedPartitionId == partitionId then ids == ids' else forall k | 0 <= k < |seen| ::
                 seen[k].binding !in ids'
      requires |buildTids| == |pairs| && forall k | 0 <= k < |pairs| :: pairs[k].binding == buildTids[k]
      requires |bitVectors| == plan.numAtoms
      requires forall i | 0 <= i < |bitVectors| :: Decides(bitVectors[i], ctx, {i}, pairs)
      modifies this
      ensures Counted(ctx, ids') && seen == old(seen) + pairs && savedPartitionId == partitionId
    {
      hide TallyOk, Decides, Aligned, Injective, LabelsPositives;
      if savedPartitionId != partitionId {
        ResetSemiVectors(partitionSize, ctx, ids, ids');
        savedPartitionId := partitionId;
      }
      if plan.numAtoms == 0 && run.Both? {
        if plan.HasLiteral(0) {
          AddPairByPair(rows, buildTids, run.numPositive, ctx, ids', pairs);
        }
      } else {
        var positives := BitVector([], 0);
        if run.Both? {
          positives := LabelBitVector(run.numPositive, buildTids, pairs);
        }
        if plan.HasLiteral(0) {
          AddWholeChunk(rows, positives, run, ctx, ids', pairs);
        }
        AddToNodes(rows, bitVectors, positives, run, ctx, ids', pairs);
      }
      seen := seen + pairs;
    }

    /** The nodes of the plan from left to right: atoms take the filter's
        vectors, conjunctions the AND of their children's. */
    method AddToNodes(rows: seq<nat>, bitVectors: seq<BitVector>, positives: BitVector, run: Run,
                      ghost ctx: Context, ghost ids: seq<nat>, ghost pairs: seq<Pair>)
      requires Shaped() && Injective(ids) && Aligned(rows, pairs, ids) && ctx.run == run
      requires forall place | 0 < place <= |plan.nodes| && plan.HasLiteral(place) :: CountedAt(ctx, ids, place, seen)
      requires |bitVectors| == plan.numAtoms
      requires forall i | 0 <= i < |bitVectors| :: Decides(bitVectors[i], ctx, {i}, pairs)
      requires run.Both? ==> LabelsPositives(positives, run.numPositive, pairs)
      modifies this`positive, this`negative
      ensures Shaped()
      ensures positive[0] == old(positive)[0] && negative[0] == old(negative)[0]
      ensures forall place | 0 < place <= |plan.nodes| && plan.HasLiteral(place) ::
                CountedAt(ctx, ids, place, seen + pairs)
    {
      hide TallyOk, Decides, Aligned, Injective, LabelsPositives;
      var vectors: seq<BitVector> := [];
      for i := 0 to |plan.nodes|
        invariant Shaped() && |vectors| == i
        invariant positive[0] == old(positive)[0] && negative[0] == old(negative)[0]
        invariant forall j | 0 <= j < i :: Decides(vectors[j], ctx, plan.AtomsOf(j), pairs)
        invariant forall q | 0 < q <= i && plan.HasLiteral(q) :: CountedAt(ctx, ids, q, seen + pairs)
        invariant forall q | i < q <= |plan.nodes| && plan.HasLiteral(q) :: CountedAt(ctx, ids, q, seen)
      {
        var node := plan.nodes[i];
        var bits: BitVector;
        if i < plan.numAtoms {
          bits := bitVectors[i];
        } else {
          AndDecides(vectors[node.left], vectors[node.right], ctx, plan.AtomsOf(node.left), plan.AtomsOf(node.right),
                     pairs);
          bits := vectors[node.left].And(vectors[node.right]);
        }
        vectors := vectors + [bits];
        if plan.HasLiteral(i + 1) {
          AddChunk(i + 1, rows, bits, positives, run, ctx, ids, pairs);
        }
      }
    }
  }

  method AddPair(p: Tally, n: Tally, row: nat, isPositive: bool,
                 ghost ctx: Context, ghost before: seq<Pair>, ghost pair: Pair, ghost ids: seq<nat>)
    returns (p': Tally, n': Tally)
    requires ctx.run.Both? && isPositive == (pair.binding < ctx.run.numPositive)
    requires TallyOk(p, before, PositiveSel(ctx, {}), ids) && TallyOk(n, before, NegativeSel(ctx, {}), ids)
    requires Injective(ids) && row < |ids| && pair.binding == ids[row]
    ensures TallyOk(p', before + [pair], PositiveSel(ctx, {}), ids)
            && TallyOk(n', before + [pair], NegativeSel(ctx, {}), ids)
  {
    hide CoverOk, Injective;
    ghost var psel, nsel := PositiveSel(ctx, {}), NegativeSel(ctx, {});
    p', n' := p, n;
    if isPositive {
      var semi, covered := TestAndSet(p.semi, row, p.covered, before, pair, psel, ids);
      p' := Tally(p.bindings + 1, covered, semi);
      CoverOkSkips(n, before, pair, nsel, ids);
    } else {
      var semi, covered := TestAndSet(n.semi, row, n.covered, before, pair, nsel, ids);
      n' := Tally(n.bindings + 1, covered, semi);
      CoverOkSkips(p, before, pair, psel, ids);
    }
    CountSnoc(before, pair, psel);
    CountSnoc(before, pair, nsel);
  }

  lemma CoverOkSkips(t: Tally, before: seq<Pair>, pair: Pair, sel: Selection, ids: seq<nat>)
    requires CoverOk(t.covered, t.semi, before, sel, ids) && !sel(pair)
    ensures CoverOk(t.covered, t.semi, before + [pair], sel, ids)
  {
    CoverSnoc(before, pair, sel);
  }

  ghost predicate LabelsPositives(positives: BitVector, numPositive: nat, pairs: seq<Pair>) {
    && positives.Valid() && positives.size == |pairs|
    && forall k | 0 <= k < |pairs| :: positives.View()[k] == (pairs[k].binding < numPositive)
  }

  lemma AndDecides(x: BitVector, y: BitVector, ctx: Context, a: set<nat>, b: set<nat>, pairs: seq<Pair>)
    requires Decides(x, ctx, a, pairs) && Decides(y, ctx, b, pairs)
    ensures x.Valid() && y.Valid() && x.size == y.size && Decides(x.And(y), ctx, a + b, pairs)
  {
  }

  method LabelBitVector(numPositive: nat, buildTids: seq<nat>, ghost pairs: seq<Pair>) returns (bits: BitVector)
    requires |buildTids| == |pairs| && forall k | 0 <= k < |pairs| :: pairs[k].binding == buildTids[k]
    ensures LabelsPositives(bits, numPositive, pairs)
  {
    bits := WriteBits(|buildTids|, (k: nat) => k < |buildTids| && buildTids[k] < numPositive);
  }
}
