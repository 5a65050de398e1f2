/** Copying the rows that a bit vector selects (expressions/AttributeReference.hpp,
    EvaluateWithFilter), and the rows that a semi-join leaves uncovered. */
module Gather {
  import BindingTables
  import opened RadixPartition
  import opened PartitionAssigner
  import opened BitVectors
  import opened Tallies
  import opened Bindings
  import opened KeyColumns
  import opened MultiColumnJoin
  import opened SemiJoins

  /** The values whose bit is set, in order. */
  ghost function Selected(values: seq<Value>, bits: seq<bool>): (r: seq<Value>)
    ensures |r| == Ones(bits)
  {
    if bits == [] then []
    else
      var n := |bits| - 1;
      Selected(values, bits[..n]) + (if bits[n] then [ValueAt(values, n)] else [])
  }

  function Negated(bits: seq<bool>): (r: seq<bool>)
    ensures |r| == |bits| && forall i | 0 <= i < |r| :: r[i] == !bits[i]
  {
    seq(|bits|, i requires 0 <= i < |bits| => !bits[i])
  }

  lemma SelectedSnoc(values: seq<Value>, bits: seq<bool>, start: nat, end: nat)
    requires start <= end < |bits| && bits[end] && forall k | start <= k < end :: !bits[k]
    ensures Selected(values, bits[..end + 1]) == Selected(values, bits[..start]) + [ValueAt(values, end)]
  {
    SelectedSkips(values, bits, start, end);
    assert bits[..end + 1][..end] == bits[..end];
  }

  lemma {:induction false} SelectedSkips(values: seq<Value>, bits: seq<bool>, start: nat, end: nat)
    requires start <= end <= |bits| && forall k | start <= k < end :: !bits[k]
    ensures Selected(values, bits[..end]) == Selected(values, bits[..start])
    decreases end
  {
    if start < end {
      SelectedSkips(values, bits, start, end - 1);
      assert bits[..end][..end - 1] == bits[..end - 1];
    }
  }

  /** Selecting in two parts. */
  lemma {:induction false} SelectedConcat(values: seq<Value>, a: seq<bool>, b: seq<bool>)
    requires |a| + |b| <= |values|
    ensures Selected(values, a + b) == Selected(values, a) + Selected(From(values, |a|), b)
  {
    if b == [] {
      assert a + b == a;
    } else {
      var n := |b| - 1;
      assert (a + b)[..|a| + n] == a + b[..n];
      SelectedConcat(values, a, b[..n]);
      assert ValueAt(values, |a| + n) == ValueAt(From(values, |a|), n);
    }
  }

  lemma {:induction false} OnesNegated(bits: seq<bool>)
    ensures Ones(Negated(bits)) == |bits| - Ones(bits)
  {
    if bits != [] {
      var n := |bits| - 1;
      OnesNegated(bits[..n]);
      assert Negated(bits)[..n] == Negated(bits[..n]);
    }
  }

  /** The selected values among the first n rows have been written. */
  ghost predicate Copied(before: seq<Value>, after: seq<Value>, pos: nat, values: seq<Value>, v: seq<bool>, n: nat,
                         count: nat) {
    && n <= |v| && count == Ones(v[..n]) && |after| == |before| && pos + count <= |before|
    && after == Spliced(before, pos, Selected(values, v[..n]))
  }

  /** The next set bit: its value is appended. */
  lemma CopiedNext(before: seq<Value>, after: seq<Value>, pos: nat, values: seq<Value>, v: seq<bool>, n: nat,
                   count: nat, row: nat)
    requires Copied(before, after, pos, values, v, n, count) && pos + count < |before|
    requires n <= row < |v| && row < |values| && v[row] && forall k | n <= k < row :: !v[k]
    ensures Ones(v[..row + 1]) == count + 1
    ensures Copied(before, after[pos + count := values[row]], pos, values, v, row + 1, count + 1)
  {
    OnesStep(v, n, row);
    SelectedSnoc(values, v, n, row);
    OneWritten(before, after[pos + count := values[row]], pos, Selected(values, v[..n]), values[row]);
  }

  lemma NothingCopied(before: seq<Value>, pos: nat, values: seq<Value>, v: seq<bool>)
    requires pos <= |before|
    ensures Copied(before, before, pos, values, v, 0, 0)
  {
    assert v[..0] == [];
  }

  lemma AllCopied(before: seq<Value>, after: seq<Value>, pos: nat, values: seq<Value>, v: seq<bool>, n: nat)
    requires Copied(before, after, pos, values, v, n, Ones(v))
    ensures pos + Ones(v) <= |before| && after == Spliced(before, pos, Selected(values, v))
  {
    OnesOfPrefix(v, n);
    SelectedSkips(values, v, n, |v|);
    assert v[..|v|] == v;
  }

  /** Writes the selected values from a position on, visiting the set bits. */
  method EvaluateWithFilter(values: seq<Value>, bits: BitVector, numOutput: nat, pos: nat, output: array<Value>)
    requires bits.Valid() && bits.size <= |values| && numOutput == Ones(bits.View()) > 0
    requires pos + numOutput <= output.Length
    modifies output
    ensures output[..] == Spliced(old(output[..]), pos, Selected(values, bits.View()))
  {
    hide *;
    ghost var v, before := bits.View(), output[..];
    ViewIsAt(bits);
    SomeOne(v);
    NothingCopied(before, pos, values, v);
    var it := new BitVectorIterator(bits);
    var row := it.GetFirst();
    CopiedNext(before, output[..], pos, values, v, 0, 0, row);
    ghost var was := output[..];
    output[pos] := values[row];
    assert output[..] == was[pos := values[row]];
    for index := 1 to numOutput
      invariant it.Valid() && it.bits == bits && row == it.Position() && row < |v| && fresh(it)
      invariant Ones(v[..row + 1]) == index && Copied(before, output[..], pos, values, v, row + 1, index)
    {
      OneLeft(v, row + 1);
      ghost var last := row;
      row := it.FindNext();
      LiesInside(bits, it.Position());
      CopiedNext(before, output[..], pos, values, v, last + 1, index, row);
      was := output[..];
      output[pos + index] := values[row];
      assert output[..] == was[pos + index := values[row]];
    }
    AllCopied(before, output[..], pos, values, v, row + 1);
  }

  lemma OneWritten(before: seq<Value>, after: seq<Value>, pos: nat, written: seq<Value>, value: Value)
    requires pos + |written| < |before| && after == Spliced(before, pos, written)[pos + |written| := value]
    ensures after == Spliced(before, pos, written + [value])
  {
  }

  // ---------------------------------------------------------------------
  // The rows without a partner
  // ---------------------------------------------------------------------

  /** The buffers start with the rows of the first n bits that are not set. */
  ghost predicate Gathered(outputs: seq<array<Value>>, columns: seq<seq<Value>>, all: seq<bool>, n: nat, numOutput: nat)
    reads set i | 0 <= i < |outputs| :: outputs[i]
  {
    && n <= |all| && |outputs| <= |columns| && numOutput == Ones(Negated(all[..n]))
    && forall i | 0 <= i < |outputs| ::
         numOutput <= outputs[i].Length && outputs[i][..numOutput] == Selected(columns[i], Negated(all[..n]))
  }

  /** Appends the rows of one chunk that have no partner. */
  method GatherChunk(chunk: SemiJoinChunk, outputs: seq<array<Value>>, numOutput: nat,
                     ghost columns: seq<seq<Value>>, ghost all: seq<bool>, ghost start: nat)
    returns (numOutput': nat)
    requires DistinctBuffers(outputs) && Gathered(outputs, columns, all, start, numOutput)
    requires ChunkOf(chunk, columns, |outputs|, all, start)
    requires |outputs| <= |columns|
    requires forall i | 0 <= i < |outputs| :: |columns[i]| == |all| && Ones(Negated(all)) <= outputs[i].Length
    modifies set i | 0 <= i < |outputs| :: outputs[i]
    ensures Gathered(outputs, columns, all, start + chunk.bits.size, numOutput')
  {
    hide *;
    ChunkFacts(chunk, columns, |outputs|, all, start);
    var flipped := chunk.bits.Flip();
    var numOnes := chunk.bits.size - chunk.numOnes;
    ghost var end := start + chunk.bits.size;
    ghost var view := flipped.View();
    FlippedIsNegated(chunk.bits);
    OnesNegated(chunk.bits.View());
    ChunkOnes(all, start, end, view);
    numOutput' := numOutput + numOnes;
    ghost var before := SelectedColumns(columns, |outputs|, Negated(all[..start]));
    BeforeGathered(outputs, columns, all, start, numOutput);
    if numOnes > 0 {
      WriteSelected(chunk.outputColumns, flipped, numOnes, numOutput, outputs, before);
    } else {
      NothingSelected(chunk.outputColumns, view, before, |outputs|);
    }
    GatheredMore(chunk, outputs, numOutput, numOutput', columns, all, start, view, before);
  }

  lemma ChunkFacts(chunk: SemiJoinChunk, columns: seq<seq<Value>>, n: nat, all: seq<bool>, start: nat)
    requires n <= |columns| && ChunkOf(chunk, columns, n, all, start) && forall i | 0 <= i < n :: |columns[i]| == |all|
    ensures chunk.bits.Valid() && |chunk.bits.View()| == chunk.bits.size && n <= |columns|
    ensures start + chunk.bits.size <= |all| && chunk.bits.View() == all[start..start + chunk.bits.size]
    ensures chunk.numOnes == Ones(chunk.bits.View()) <= chunk.bits.size
    ensures |chunk.outputColumns| == n && forall i | 0 <= i < n ::
              chunk.outputColumns[i] == From(columns[i], start) && chunk.bits.size <= |chunk.outputColumns[i]|
  {
  }

  lemma FlippedIsNegated(bits: BitVector)
    requires bits.Valid()
    ensures bits.Flip().Valid() && bits.Flip().size == bits.size && bits.Flip().View() == Negated(bits.View())
  {
  }

  lemma BeforeGathered(outputs: seq<array<Value>>, columns: seq<seq<Value>>, all: seq<bool>, n: nat, numOutput: nat)
    requires Gathered(outputs, columns, all, n, numOutput)
    ensures n <= |all| && |outputs| <= |columns| && numOutput == Ones(Negated(all[..n]))
    ensures |SelectedColumns(columns, |outputs|, Negated(all[..n]))| == |outputs|
    ensures forall j | 0 <= j < |outputs| ::
              numOutput <= outputs[j].Length
              && outputs[j][..numOutput] == SelectedColumns(columns, |outputs|, Negated(all[..n]))[j]
  {
  }

  lemma NothingSelected(inputColumns: seq<seq<Value>>, bits: seq<bool>, before: seq<seq<Value>>, n: nat)
    requires Ones(bits) == 0 && n <= |inputColumns| && n <= |before|
    ensures forall j | 0 <= j < n :: before[j] == before[j] + Selected(inputColumns[j], bits)
  {
  }

  ghost function SelectedColumns(columns: seq<seq<Value>>, n: nat, bits: seq<bool>): (r: seq<seq<Value>>)
    requires n <= |columns|
  {
    seq(n, i requires 0 <= i < n => Selected(columns[i], bits))
  }

  method WriteSelected(inputColumns: seq<seq<Value>>, bits: BitVector, numOnes: nat, numOutput: nat,
                       outputs: seq<array<Value>>,
                       ghost before: seq<seq<Value>>)
    requires DistinctBuffers(outputs) && |inputColumns| == |outputs| == |before|
    requires bits.Valid() && numOnes == Ones(bits.View()) > 0
    requires forall j | 0 <= j < |outputs| ::
               && bits.size <= |inputColumns[j]| && numOutput + numOnes <= outputs[j].Length
               && outputs[j][..numOutput] == before[j]
    modifies set i | 0 <= i < |outputs| :: outputs[i]
    ensures forall j | 0 <= j < |outputs| ::
              outputs[j][..numOutput + numOnes] == before[j] + Selected(inputColumns[j], bits.View())
  {
    hide Ones, Selected, Spliced, BitVector.View, BitVector.Valid;
    for i := 0 to |outputs|
      invariant forall j | 0 <= j < i ::
                  outputs[j][..numOutput + numOnes] == before[j] + Selected(inputColumns[j], bits.View())
      invariant forall j | i <= j < |outputs| :: outputs[j][..numOutput] == before[j]
    {
      ghost var s := outputs[i][..];
      EvaluateWithFilter(inputColumns[i], bits, numOnes, numOutput, outputs[i]);
      BindingTables.SplicedPrefix(s, numOutput, Selected(inputColumns[i], bits.View()));
    }
  }

  lemma GatheredMore(chunk: SemiJoinChunk, outputs: seq<array<Value>>, numOutput: nat, numOutput': nat,
                     columns: seq<seq<Value>>,
                     all: seq<bool>, start: nat, view: seq<bool>, before: seq<seq<Value>>)
    requires ChunkOf(chunk, columns, |outputs|, all, start) && view == Negated(chunk.bits.View())
    requires numOutput == Ones(Negated(all[..start])) && numOutput' == numOutput + Ones(view)
    requires before == SelectedColumns(columns, |outputs|, Negated(all[..start]))
    requires |outputs| <= |columns|
    requires forall i | 0 <= i < |outputs| :: |columns[i]| == |all| && numOutput' <= outputs[i].Length
    requires forall j | 0 <= j < |outputs| ::
               outputs[j][..numOutput'] == before[j] + Selected(chunk.outputColumns[j], view)
    ensures Gathered(outputs, columns, all, start + chunk.bits.size, numOutput')
  {
    hide *;
    var end := start + chunk.bits.size;
    ChunkFacts(chunk, columns, |outputs|, all, start);
    NegatedConcat(all, start, end);
    OnesConcat(Negated(all[..start]), view);
    forall i | 0 <= i < |outputs|
      ensures outputs[i][..numOutput'] == Selected(columns[i], Negated(all[..end]))
    {
      ColumnGathered(columns[i], all, start, end, view);
      BeforeIs(columns, |outputs|, Negated(all[..start]), i);
    }
    GatheredFrom(outputs, columns, all, end, numOutput');
  }

  lemma GatheredFrom(outputs: seq<array<Value>>, columns: seq<seq<Value>>, all: seq<bool>, n: nat, numOutput: nat)
    requires n <= |all| && |outputs| <= |columns| && numOutput == Ones(Negated(all[..n]))
    requires forall i | 0 <= i < |outputs| ::
               numOutput <= outputs[i].Length && outputs[i][..numOutput] == Selected(columns[i], Negated(all[..n]))
    ensures Gathered(outputs, columns, all, n, numOutput)
  {
  }

  lemma BeforeIs(columns: seq<seq<Value>>, n: nat, bits: seq<bool>, i: nat)
    requires i < n <= |columns|
    ensures SelectedColumns(columns, n, bits)[i] == Selected(columns[i], bits)
  {
  }

  lemma ColumnGathered(column: seq<Value>, all: seq<bool>, start: nat, end: nat, view: seq<bool>)
    requires start <= end <= |all| == |column| && view == Negated(all[start..end])
    ensures Selected(column, Negated(all[..end]))
            == Selected(column, Negated(all[..start])) + Selected(From(column, start), view)
  {
    NegatedConcat(all, start, end);
    SelectedConcat(column, Negated(all[..start]), view);
  }

  lemma NegatedConcat(all: seq<bool>, start: nat, end: nat)
    requires start <= end <= |all|
    ensures Negated(all[..end]) == Negated(all[..start]) + Negated(all[start..end])
  {
  }

  lemma ChunkOnes(all: seq<bool>, start: nat, end: nat, view: seq<bool>)
    requires start <= end <= |all| && view == Negated(all[start..end])
    ensures Ones(Negated(all[..end])) == Ones(Negated(all[..start])) + Ones(view) <= Ones(Negated(all))
  {
    NegatedConcat(all, start, end);
    OnesConcat(Negated(all[..start]), view);
    assert Negated(all)[..end] == Negated(all[..end]);
    OnesOfPrefix(Negated(all), end);
  }

  lemma {:induction false} OnesConcat(a: seq<bool>, b: seq<bool>)
    ensures Ones(a + b) == Ones(a) + Ones(b)
  {
    if b == [] {
      assert a + b == a;
    } else {
      assert (a + b)[..|a + b| - 1] == a + b[..|b| - 1];
      OnesConcat(a, b[..|b| - 1]);
    }
  }

  /** Realloc to the rows that were written. */
  method FirstRows(outputs: seq<array<Value>>, numOutput: nat, ghost global: seq<seq<Value>>, ghost bits: seq<bool>)
    returns (columns: seq<seq<Value>>)
    requires Gathered(outputs, global, bits, |bits|, numOutput) && |outputs| == |global|
    ensures |columns| == |global| && forall i | 0 <= i < |columns| :: columns[i] == Selected(global[i], Negated(bits))
  {
    assert bits[..|bits|] == bits;
    hide Selected, Negated, Ones;
    columns := [];
    for i := 0 to |outputs|
      invariant |columns| == i && forall j | 0 <= j < i :: columns[j] == Selected(global[j], Negated(bits))
    {
      columns := columns + [outputs[i][..numOutput]];
    }
  }
}
