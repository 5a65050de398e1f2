/** The counters a literal collects from a stream of joined pairs, and the
    semi-join bit vector that keeps bindings from being counted twice
    (operations/CountAggregator.cpp). */
module Tallies {
  import opened BitVectors

  /** A fact row joined with a binding row. */
  datatype Pair = Pair(fact: nat, binding: nat)

  type Selection = Pair -> bool

  /** Number of selected pairs. */
  ghost function Count(pairs: seq<Pair>, sel: Selection): (n: nat) {
    if pairs == [] then 0
    else Count(pairs[..|pairs| - 1], sel) + (if sel(pairs[|pairs| - 1]) then 1 else 0)
  }

  /** The binding rows that occur in a selected pair. */
  ghost function Cover(pairs: seq<Pair>, sel: Selection): (bs: set<nat>) {
    set i | 0 <= i < |pairs| && sel(pairs[i]) :: pairs[i].binding
  }

  /** num_binding_*, num_covered_* and the *_semi_bitvector of one literal and label. */
  datatype Tally = Tally(bindings: nat, covered: nat, semi: seq<bool>)

  /** The tally is right for the pairs seen, while the bit vector speaks about
      the rows ids of the current partition. */
  ghost predicate TallyOk(t: Tally, pairs: seq<Pair>, sel: Selection, ids: seq<nat>) {
    t.bindings == Count(pairs, sel) && CoverOk(t.covered, t.semi, pairs, sel, ids)
  }

  ghost predicate CoverOk(covered: nat, semi: seq<bool>, pairs: seq<Pair>, sel: Selection, ids: seq<nat>) {
    && covered == |Cover(pairs, sel)|
    && |semi| == |ids|
    && forall r | 0 <= r < |ids| :: semi[r] <==> ids[r] in Cover(pairs, sel)
  }

  ghost predicate Injective(ids: seq<nat>) {
    forall i, j | 0 <= i < j < |ids| :: ids[i] != ids[j]
  }

  lemma {:induction false} CountConcat(a: seq<Pair>, b: seq<Pair>, sel: Selection)
    ensures Count(a + b, sel) == Count(a, sel) + Count(b, sel)
  {
    if b == [] {
      assert a + b == a;
    } else {
      assert (a + b)[..|a + b| - 1] == a + b[..|b| - 1];
      CountConcat(a, b[..|b| - 1], sel);
    }
  }

  lemma CountSnoc(pairs: seq<Pair>, p: Pair, sel: Selection)
    ensures Count(pairs + [p], sel) == Count(pairs, sel) + (if sel(p) then 1 else 0)
  {
    assert (pairs + [p])[..|pairs|] == pairs;
  }

  lemma CoverSnoc(pairs: seq<Pair>, p: Pair, sel: Selection)
    ensures Cover(pairs + [p], sel) == Cover(pairs, sel) + (if sel(p) then {p.binding} else {})
  {
    var all := pairs + [p];
    assert forall i | 0 <= i < |pairs| :: all[i] == pairs[i];
    assert all[|pairs|] == p;
    forall b | b in Cover(pairs, sel)
      ensures b in Cover(all, sel)
    {
      var i :| 0 <= i < |pairs| && sel(pairs[i]) && pairs[i].binding == b;
      assert all[i].binding == b;
    }
  }

  /** Pairs that are not selected change nothing. */
  lemma {:induction false} CoverSkips(pairs: seq<Pair>, more: seq<Pair>, sel: Selection)
    requires forall k | 0 <= k < |more| :: !sel(more[k])
    ensures Cover(pairs + more, sel) == Cover(pairs, sel)
  {
    if more == [] {
      assert pairs + more == pairs;
    } else {
      var init := more[..|more| - 1];
      CoverSkips(pairs, init, sel);
      assert pairs + more == (pairs + init) + [more[|more| - 1]];
      CoverSnoc(pairs + init, more[|more| - 1], sel);
    }
  }

  /** if (!semi.test_set(row)) ++count; */
  method TestAndSet(semi: seq<bool>, row: nat, covered: nat,
                    ghost pairs: seq<Pair>, ghost p: Pair, ghost sel: Selection, ghost ids: seq<nat>)
    returns (semi': seq<bool>, covered': nat)
    requires CoverOk(covered, semi, pairs, sel, ids) && Injective(ids)
    requires row < |ids| && p.binding == ids[row] && sel(p)
    ensures CoverOk(covered', semi', pairs + [p], sel, ids)
  {
    CoverSnoc(pairs, p, sel);
    covered' := if semi[row] then covered else covered + 1;
    semi' := semi[row := true];
    if semi[row] {
      assert Cover(pairs, sel) + {p.binding} == Cover(pairs, sel);
    }
  }

  /** The pairs of one chunk line up with its relative tuple ids. */
  ghost predicate Aligned(rows: seq<nat>, pairs: seq<Pair>, ids: seq<nat>) {
    |rows| == |pairs| && forall k | 0 <= k < |rows| :: rows[k] < |ids| && pairs[k].binding == ids[rows[k]]
  }

  method UpdateSemiBitVectorWithNoFilter(rows: seq<nat>, t: Tally,
                                         ghost seen: seq<Pair>, ghost pairs: seq<Pair>, ghost sel: Selection,
                                             ghost ids: seq<nat>)
    returns (covered: nat, semi: seq<bool>)
    requires CoverOk(t.covered, t.semi, seen, sel, ids) && Injective(ids) && Aligned(rows, pairs, ids)
    requires forall k | 0 <= k < |pairs| :: sel(pairs[k])
    ensures CoverOk(covered, semi, seen + pairs, sel, ids)
  {
    covered, semi := t.covered, t.semi;
    assert seen + pairs[..0] == seen;
    for k := 0 to |rows|
      invariant CoverOk(covered, semi, seen + pairs[..k], sel, ids)
    {
      semi, covered := TestAndSet(semi, rows[k], covered, seen + pairs[..k], pairs[k], sel, ids);
      assert seen + pairs[..k + 1] == (seen + pairs[..k]) + [pairs[k]];
    }
    assert pairs[..|rows|] == pairs;
  }

  /** Visits the numOnes set bits of the join result with the bit iterator. */
  method UpdateSemiBitVector(rows: seq<nat>, bits: BitVector, numOnes: nat, t: Tally,
                             ghost seen: seq<Pair>, ghost pairs: seq<Pair>, ghost sel: Selection, ghost ids: seq<nat>)
    returns (covered: nat, semi: seq<bool>)
    requires CoverOk(t.covered, t.semi, seen, sel, ids) && Injective(ids) && Aligned(rows, pairs, ids)
    requires bits.Valid() && bits.size == |rows| == |pairs| && numOnes == Ones(bits.View())
    requires forall k | 0 <= k < |pairs| :: sel(pairs[k]) == bits.View()[k]
    ensures CoverOk(covered, semi, seen + pairs, sel, ids)
  {
    hide CoverOk, Aligned, Injective, Ones, BitVector.View, BitVector.Valid, BitVector.At;
    covered, semi := t.covered, t.semi;
    ghost var v := bits.View();
    assert seen + pairs[..0] == seen && v[..0] == [];
    if numOnes > 0 {
      SomeOne(v);
      ViewIsAt(bits);
      var it := new BitVectorIterator(bits);
      var row := it.GetFirst();
      semi, covered := Visit(rows, 0, row, covered, semi, v, seen, pairs, sel, ids);
      for i := 1 to numOnes
        invariant it.Valid() && it.bits == bits && row == it.Position() && row < |v|
        invariant Ones(v[..row + 1]) == i
        invariant CoverOk(covered, semi, seen + pairs[..row + 1], sel, ids)
      {
        OneLeft(v, row + 1);
        var next := it.FindNext();
        LiesInside(bits, it.Position());
        semi, covered := Visit(rows, row + 1, next, covered, semi, v, seen, pairs, sel, ids);
        row := next;
      }
      NoneLeft(rows, row + 1, covered, semi, v, seen, pairs, sel, ids);
    } else {
      NoneLeft(rows, 0, covered, semi, v, seen, pairs, sel, ids);
    }
  }

  lemma ViewIsAt(bits: BitVector)
    requires bits.Valid()
    ensures bits.size <= 64 * |bits.blocks| && |bits.View()| == bits.size
    ensures forall i | 0 <= i < bits.size :: bits.View()[i] == bits.At(i)
  {
  }

  lemma LiesInside(bits: BitVector, i: nat)
    requires bits.Valid() && i < 64 * |bits.blocks| && bits.At(i)
    ensures i < bits.size
  {
  }

  lemma OneLeft(v: seq<bool>, from: nat)
    requires from <= |v| && Ones(v[..from]) < Ones(v)
    ensures exists i :: from <= i < |v| && v[i]
  {
    OnesOfPrefix(v, from);
  }

  /** Everything from position from up to the next set bit, inclusive. */
  method Visit(rows: seq<nat>, from: nat, row: nat, covered: nat, semi: seq<bool>,
               ghost v: seq<bool>, ghost seen: seq<Pair>, ghost pairs: seq<Pair>, ghost sel: Selection,
                   ghost ids: seq<nat>)
    returns (semi': seq<bool>, covered': nat)
    requires Injective(ids) && Aligned(rows, pairs, ids) && |v| == |rows|
    requires forall k | 0 <= k < |pairs| :: sel(pairs[k]) == v[k]
    requires from <= row < |v| && v[row] && forall k | from <= k < row :: !v[k]
    requires CoverOk(covered, semi, seen + pairs[..from], sel, ids)
    ensures CoverOk(covered', semi', seen + pairs[..row + 1], sel, ids)
    ensures Ones(v[..row + 1]) == Ones(v[..from]) + 1
  {
    SkipTo(seen, pairs, sel, from, row);
    OnesStep(v, from, row);
    semi', covered' := TestAndSet(semi, rows[row], covered, seen + pairs[..row], pairs[row], sel, ids);
    assert seen + pairs[..row + 1] == (seen + pairs[..row]) + [pairs[row]];
  }

  lemma NoneLeft(rows: seq<nat>, from: nat, covered: nat, semi: seq<bool>, v: seq<bool>,
                 seen: seq<Pair>, pairs: seq<Pair>, sel: Selection, ids: seq<nat>)
    requires |v| == |rows| == |pairs| && forall k | 0 <= k < |pairs| :: sel(pairs[k]) == v[k]
    requires from <= |v| && Ones(v[..from]) == Ones(v)
    requires CoverOk(covered, semi, seen + pairs[..from], sel, ids)
    ensures CoverOk(covered, semi, seen + pairs, sel, ids)
  {
    OnesOfPrefix(v, from);
    SkipTo(seen, pairs, sel, from, |pairs|);
    assert pairs[..|pairs|] == pairs;
  }

  lemma SomeOne(v: seq<bool>)
    requires Ones(v) > 0
    ensures exists i :: 0 <= i < |v| && v[i]
  {
    OnesOfPrefix(v, 0);
    assert v[..0] == [];
  }

  lemma SkipTo(seen: seq<Pair>, pairs: seq<Pair>, sel: Selection, from: nat, to: nat)
    requires from <= to <= |pairs| && forall k | from <= k < to :: !sel(pairs[k])
    ensures Cover(seen + pairs[..to], sel) == Cover(seen + pairs[..from], sel)
  {
    assert seen + pairs[..to] == (seen + pairs[..from]) + pairs[from..to];
    CoverSkips(seen + pairs[..from], pairs[from..to], sel);
  }

  /** The next set bit is the only one in between. */
  lemma OnesStep(v: seq<bool>, from: nat, to: nat)
    requires from <= to < |v| && v[to] && forall k | from <= k < to :: !v[k]
    ensures Ones(v[..to + 1]) == Ones(v[..from]) + 1
  {
    assert v[..to + 1][..to] == v[..to] && v[..to][..from] == v[..from];
    OnesOfPrefix(v[..to], from);
  }

  lemma {:induction false} OnesIsCount(v: seq<bool>, pairs: seq<Pair>, sel: Selection)
    requires |v| == |pairs| && forall k | 0 <= k < |v| :: v[k] == sel(pairs[k])
    ensures Ones(v) == Count(pairs, sel)
  {
    if v != [] {
      OnesIsCount(v[..|v| - 1], pairs[..|v| - 1], sel);
    }
  }

  /** Adds one chunk's selected pairs to a tally. */
  method UpdateTally(rows: seq<nat>, bits: BitVector, t: Tally,
                     ghost seen: seq<Pair>, ghost pairs: seq<Pair>, ghost sel: Selection, ghost ids: seq<nat>)
    returns (t': Tally)
    requires TallyOk(t, seen, sel, ids) && Injective(ids) && Aligned(rows, pairs, ids)
    requires bits.Valid() && bits.size == |rows|
    requires forall k | 0 <= k < |pairs| :: sel(pairs[k]) == bits.View()[k]
    ensures TallyOk(t', seen + pairs, sel, ids)
  {
    var numOnes := Ones(bits.View());
    OnesIsCount(bits.View(), pairs, sel);
    CountConcat(seen, pairs, sel);
    var covered, semi := UpdateSemiBitVector(rows, bits, numOnes, t, seen, pairs, sel, ids);
    t' := Tally(t.bindings + numOnes, covered, semi);
  }

  method UpdateTallyWithNoFilter(rows: seq<nat>, t: Tally,
                                 ghost seen: seq<Pair>, ghost pairs: seq<Pair>, ghost sel: Selection,
                                     ghost ids: seq<nat>)
    returns (t': Tally)
    requires TallyOk(t, seen, sel, ids) && Injective(ids) && Aligned(rows, pairs, ids)
    requires forall k | 0 <= k < |pairs| :: sel(pairs[k])
    ensures TallyOk(t', seen + pairs, sel, ids)
  {
    var v := seq(|rows|, _ => true);
    AllOnes(v);
    OnesIsCount(v, pairs, sel);
    CountConcat(seen, pairs, sel);
    var covered, semi := UpdateSemiBitVectorWithNoFilter(rows, t, seen, pairs, sel, ids);
    t' := Tally(t.bindings + |rows|, covered, semi);
  }

  lemma {:induction false} AllOnes(v: seq<bool>)
    requires forall i | 0 <= i < |v| :: v[i]
    ensures Ones(v) == |v|
  {
    if v != [] {
      AllOnes(v[..|v| - 1]);
    }
  }

  /** ResetSemiVectors at the first chunk of a partition none of whose rows has
      been seen: the counters stay, all bits are cleared. */
  lemma ResetIsRight(t: Tally, pairs: seq<Pair>, sel: Selection, ids: seq<nat>, ids': seq<nat>)
    requires TallyOk(t, pairs, sel, ids)
    requires forall k | 0 <= k < |pairs| :: pairs[k].binding !in ids'
    ensures TallyOk(Tally(t.bindings, t.covered, seq(|ids'|, _ => false)), pairs, sel, ids')
  {
  }
}
