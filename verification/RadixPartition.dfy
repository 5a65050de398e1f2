/** Radix partitioning of one column through write-combining cache lines
    (operations/RadixPartition.cpp). */
module RadixPartition {
  import opened Bits

  /** Column values; only their equality and their hash matter here. */
  type Value = int

  /** The 32-bit hash of a value, as some deterministic function. */
  type Hash = Value -> nat

  datatype PartitionTuple = PartitionTuple(value: Value, tupleId: nat)

  /** The last slot of a cache line is a union: it holds the write position of
      the line until the very write that completes the line. */
  datatype LastSlot = Info(tupleSlot: nat, bufferSlot: nat) | Tuple(tuple: PartitionTuple)

  /** Tuples of eight bytes in a cache line of 64. */
  const BLOCK_CAPACITY := 8

  /** A column to be split by the low bits of the hash, and what the result
      must look like. */
  datatype Job = Job(column: seq<Value>, hash: Hash, numRadixBits: nat) {

    function Count(): (n: nat)
      ensures n > 0
    {
      Pow2(numRadixBits)
    }

    /** hash & (count - 1); the count is a power of two. */
    function PartOf(v: Value): (p: nat)
      ensures p < Count()
    {
      hash(v) % Count()
    }

    /** The (value, id) pairs of partition p among the first n rows, by
        increasing tuple id. */
    function Bucket(p: nat, n: nat): (b: seq<PartitionTuple>)
      requires n <= |column|
      ensures |b| <= n
    {
      if n == 0 then []
      else if PartOf(column[n - 1]) == p then Bucket(p, n - 1) + [PartitionTuple(column[n - 1], n - 1)]
      else Bucket(p, n - 1)
    }

    /** The partitions before p laid end to end. */
    function Layout(p: nat): (t: seq<PartitionTuple>) {
      if p == 0 then [] else Layout(p - 1) + Bucket(p - 1, |column|)
    }

    function Offset(p: nat): (o: nat) {
      |Layout(p)|
    }

    /** Where partition p writes next after the first i rows. */
    function Position(p: nat, i: nat): (q: nat)
      requires i <= |column|
    {
      Offset(p) + |Bucket(p, i)|
    }

    /** Everything, in output order. */
    function Target(): (t: seq<PartitionTuple>) {
      Layout(Count())
    }

    predicate Owns(p: nat, q: nat) {
      Offset(p) <= q < Offset(p + 1)
    }

    lemma {:induction false} BucketIsPrefix(p: nat, i: nat, n: nat)
      requires i <= n <= |column|
      ensures Bucket(p, i) <= Bucket(p, n)
      decreases n
    {
      if i < n {
        BucketIsPrefix(p, i, n - 1);
      }
    }

    lemma {:induction false} LayoutIsPrefix(p: nat, p': nat)
      requires p <= p'
      ensures Layout(p) <= Layout(p')
      decreases p'
    {
      if p < p' {
        LayoutIsPrefix(p, p' - 1);
      }
    }

    /** Row i goes to the next free position of its partition. */
    lemma RowPosition(i: nat)
      requires i < |column|
      ensures var p := PartOf(column[i]);
              && Owns(p, Position(p, i)) && Position(p, i) < |Target()|
              && Target()[Position(p, i)] == PartitionTuple(column[i], i)
              && Position(p, i + 1) == Position(p, i) + 1
    {
      var p := PartOf(column[i]);
      BucketIsPrefix(p, i + 1, |column|);
      LayoutIsPrefix(p + 1, Count());
      var q := Position(p, i);
      assert Layout(p + 1)[q] == Bucket(p, |column|)[q - Offset(p)];
    }

    /** Positions never pass into the next partition, and end exactly there. */
    lemma PositionBounds(p: nat, i: nat)
      requires i <= |column| && p < Count()
      ensures Offset(p) <= Position(p, i) <= Offset(p + 1) <= |Target()|
      ensures Position(p, |column|) == Offset(p + 1)
    {
      BucketIsPrefix(p, i, |column|);
      LayoutIsPrefix(p + 1, Count());
    }

    /** Different partitions own different positions. */
    lemma OneOwner(p: nat, p': nat, q: nat)
      requires Owns(p, q) && Owns(p', q)
      ensures p == p'
    {
      if p < p' {
        LayoutIsPrefix(p + 1, p');
      } else if p' < p {
        LayoutIsPrefix(p' + 1, p);
      }
    }

    /** Sizes of the buckets of the partitions before p, after n rows. */
    function SizesBefore(p: nat, n: nat): (s: nat)
      requires n <= |column|
    {
      if p == 0 then 0 else SizesBefore(p - 1, n) + |Bucket(p - 1, n)|
    }

    lemma {:induction false} SizesStep(p: nat, n: nat)
      requires n < |column|
      ensures SizesBefore(p, n + 1) == SizesBefore(p, n) + (if PartOf(column[n]) < p then 1 else 0)
    {
      if p > 0 {
        SizesStep(p - 1, n);
      }
    }

    lemma {:induction false} SizesTotal(n: nat)
      requires n <= |column|
      ensures SizesBefore(Count(), n) == n
    {
      if n > 0 {
        SizesTotal(n - 1);
        SizesStep(Count(), n - 1);
      } else {
        NoSizes(Count());
      }
    }

    lemma {:induction false} NoSizes(p: nat)
      ensures SizesBefore(p, 0) == 0
    {
      if p > 0 {
        NoSizes(p - 1);
      }
    }

    lemma {:induction false} OffsetIsSizes(p: nat)
      ensures Offset(p) == SizesBefore(p, |column|)
    {
      if p > 0 {
        OffsetIsSizes(p - 1);
      }
    }

    /** All partitions together hold every row exactly once. */
    lemma TargetIsComplete()
      ensures |Target()| == |column|
    {
      OffsetIsSizes(Count());
      SizesTotal(|column|);
    }

    /** A partition lists exactly the rows whose hash selects it, by increasing id. */
    lemma {:induction false} BucketIsExact(p: nat, n: nat)
      requires n <= |column|
      ensures forall i, j | 0 <= i < j < |Bucket(p, n)| :: Bucket(p, n)[i].tupleId < Bucket(p, n)[j].tupleId
      ensures forall t :: t in Bucket(p, n) <==>
                t.tupleId < n && t.value == column[t.tupleId] && PartOf(t.value) == p
    {
      if n > 0 {
        BucketIsExact(p, n - 1);
        var b, init := Bucket(p, n), Bucket(p, n - 1);
        var last := PartitionTuple(column[n - 1], n - 1);
        if PartOf(column[n - 1]) == p {
          forall t
            ensures t in b <==> t in init || t == last
          {
          }
          forall i, j | 0 <= i < j < |b|
            ensures b[i].tupleId < b[j].tupleId
          {
            assert b[i] in init;
          }
        }
        forall t
          ensures t in b <==> t.tupleId < n && t.value == column[t.tupleId] && PartOf(t.value) == p
        {
          if t.tupleId == n - 1 && t.value == column[n - 1] { assert t == last; }
        }
      }
    }

    lemma PartitionOfTarget(p: nat)
      requires p < Count()
      ensures Offset(p) <= Offset(p + 1) <= |Target()|
      ensures Target()[Offset(p)..Offset(p + 1)] == Bucket(p, |column|)
    {
      LayoutIsPrefix(p + 1, Count());
      assert Target()[..Offset(p + 1)] == Layout(p + 1);
    }

    // What the cache lines and the output hold after the first i rows.

    ghost predicate InfoOk(last: array<LastSlot>, i: nat)
      requires i <= |column| && last.Length == Count()
      reads last
    {
      forall p | 0 <= p < Count() ::
        last[p] == Info(Position(p, i) / BLOCK_CAPACITY, Position(p, i) % BLOCK_CAPACITY)
    }

    ghost predicate LineOk(lines: array2<PartitionTuple>, p: nat, i: nat)
      requires i <= |column| && p < Count() == lines.Length0 && lines.Length1 == BLOCK_CAPACITY - 1
      reads lines
    {
      var next := Position(p, i);
      forall q | Offset(p) <= q < |Target()| && next / BLOCK_CAPACITY * BLOCK_CAPACITY <= q < next ::
        lines[p, q % BLOCK_CAPACITY] == Target()[q]
    }

    /** The flushed part of partition p after all rows. */
    ghost predicate Pending(output: seq<PartitionTuple>, p: nat)
      requires |Target()| <= |output|
    {
      OutputOk(output, p, Position(p, |column|) / BLOCK_CAPACITY * BLOCK_CAPACITY)
    }

    ghost predicate Done(output: seq<PartitionTuple>, p: nat)
      requires |Target()| <= |output|
    {
      OutputOk(output, p, Offset(p + 1))
    }

    ghost predicate OutputOk(output: seq<PartitionTuple>, p: nat, upTo: nat)
      requires |Target()| <= |output|
    {
      forall q | Offset(p) <= q < |Target()| && q < upTo :: output[q] == Target()[q]
    }
  }

  /** What holds between two rows of the main loop. */
  ghost predicate Progress(job: Job, i: nat, lines: array2<PartitionTuple>, last: array<LastSlot>,
                           output: array<PartitionTuple>)
    reads lines, last, output
  {
    && i <= |job.column| <= output.Length && output.Length % BLOCK_CAPACITY == 0
    && last.Length == lines.Length0 == job.Count() && lines.Length1 == BLOCK_CAPACITY - 1
    && job.InfoOk(last, i)
    && |job.Target()| == |job.column|
    && forall p | 0 <= p < job.Count() ::
         job.LineOk(lines, p, i)
         && job.OutputOk(output[..], p, job.Position(p, i) / BLOCK_CAPACITY * BLOCK_CAPACITY)
  }

  method Histogram(job: Job) returns (histogram: array<nat>)
    ensures histogram.Length == job.Count()
    ensures forall p | 0 <= p < job.Count() :: histogram[p] == |job.Bucket(p, |job.column|)|
  {
    histogram := new nat[job.Count()](_ => 0);
    for index := 0 to |job.column|
      invariant forall p | 0 <= p < job.Count() :: histogram[p] == |job.Bucket(p, index)|
    {
      var p := job.PartOf(job.column[index]);
      histogram[p] := histogram[p] + 1;
    }
  }

  /** Copies a complete cache line to line tupleSlot of the output. */
  method FlushLine(lines: array2<PartitionTuple>, p: nat, tuple: PartitionTuple, output: array<PartitionTuple>,
                   tupleSlot: nat)
    requires p < lines.Length0 && lines.Length1 == BLOCK_CAPACITY - 1
    requires (tupleSlot + 1) * BLOCK_CAPACITY <= output.Length
    modifies output
    ensures forall k | 0 <= k < BLOCK_CAPACITY - 1 :: output[tupleSlot * BLOCK_CAPACITY + k] == lines[p, k]
    ensures output[tupleSlot * BLOCK_CAPACITY + BLOCK_CAPACITY - 1] == tuple
    ensures forall q | 0 <= q < output.Length && q / BLOCK_CAPACITY != tupleSlot :: output[q] == old(output[q])
  {
    for k := 0 to BLOCK_CAPACITY - 1
      invariant forall m | 0 <= m < k :: output[tupleSlot * BLOCK_CAPACITY + m] == lines[p, m]
      invariant forall q | 0 <= q < output.Length && q / BLOCK_CAPACITY != tupleSlot :: output[q] == old(output[q])
    {
      output[tupleSlot * BLOCK_CAPACITY + k] := lines[p, k];
    }
    output[tupleSlot * BLOCK_CAPACITY + BLOCK_CAPACITY - 1] := tuple;
  }

  lemma OthersWait(job: Job, i: nat, p: nat)
    requires i < |job.column| && p != job.PartOf(job.column[i])
    ensures job.Position(p, i + 1) == job.Position(p, i)
  {
  }

  /** A flushed line can only contain finished positions of the partition that
      owns its last slot. */
  lemma FlushHitsNoOther(job: Job, i: nat, p: nat, p': nat, q: nat)
    requires i < |job.column| && p == job.PartOf(job.column[i]) && p' < job.Count() && p' != p
    requires job.Position(p, i) % BLOCK_CAPACITY == BLOCK_CAPACITY - 1
    requires job.Offset(p') <= q < job.Position(p', i) / BLOCK_CAPACITY * BLOCK_CAPACITY
    ensures q / BLOCK_CAPACITY != job.Position(p, i) / BLOCK_CAPACITY
  {
    job.RowPosition(i);
    job.PositionBounds(p', i);
    hide Job.Bucket, Job.Layout, Job.Position, Job.Target, Job.Offset, Job.PartOf;
    LastOfLine(q, job.Position(p, i), job.Position(p', i));
    if q / BLOCK_CAPACITY == job.Position(p, i) / BLOCK_CAPACITY {
      job.OneOwner(p, p', job.Position(p, i));
    }
  }

  lemma LastOfLine(q: nat, last: nat, end: nat)
    requires last % BLOCK_CAPACITY == BLOCK_CAPACITY - 1 && q < end / BLOCK_CAPACITY * BLOCK_CAPACITY
    ensures q / BLOCK_CAPACITY == last / BLOCK_CAPACITY ==> q <= last < end
  {
  }

  /** The row that completes its cache line. */
  method WriteLastSlot(job: Job, i: nat, lines: array2<PartitionTuple>, last: array<LastSlot>,
                       output: array<PartitionTuple>)
    requires i < |job.column| && Progress(job, i, lines, last, output)
    requires CompletesLine(job, i)
    modifies last, output
    ensures Progress(job, i + 1, lines, last, output)
    ensures forall q | 0 <= q < output.Length && q / BLOCK_CAPACITY != LineOf(job, i) :: output[q] == old(output[q])
  {
    hide Job.Bucket, Job.Layout, Job.Position, Job.Target, Job.Offset, Job.PartOf;
    var p := job.PartOf(job.column[i]);
    var tuple := PartitionTuple(job.column[i], i);
    job.RowPosition(i);
    ghost var pos := job.Position(p, i);
    var tupleSlot := last[p].tupleSlot;
    assert (tupleSlot + 1) * BLOCK_CAPACITY == pos + 1 <= output.Length;
    last[p] := Tuple(tuple);
    FlushLine(lines, p, last[p].tuple, output, tupleSlot);
    last[p] := Info(tupleSlot + 1, 0);
    forall p' | 0 <= p' < job.Count()
      ensures job.LineOk(lines, p', i + 1)
      ensures job.OutputOk(output[..], p', job.Position(p', i + 1) / BLOCK_CAPACITY * BLOCK_CAPACITY)
      ensures last[p'] == Info(job.Position(p', i + 1) / BLOCK_CAPACITY, job.Position(p', i + 1) % BLOCK_CAPACITY)
    {
      if p' != p {
        OthersWait(job, i, p');
        assert old(job.OutputOk(output[..], p', job.Position(p', i) / BLOCK_CAPACITY * BLOCK_CAPACITY));
        forall q | job.Offset(p') <= q < job.Position(p', i) / BLOCK_CAPACITY * BLOCK_CAPACITY && q < |job.Target()|
          ensures output[q] == job.Target()[q]
        {
          FlushHitsNoOther(job, i, p, p', q);
        }
      } else {
        assert old(job.OutputOk(output[..], p, job.Position(p, i) / BLOCK_CAPACITY * BLOCK_CAPACITY));
        forall q | job.Offset(p) <= q < pos + 1
          ensures output[q] == job.Target()[q]
        {
          if q / BLOCK_CAPACITY == tupleSlot && q < pos {
            assert output[tupleSlot * BLOCK_CAPACITY + q % BLOCK_CAPACITY] == lines[p, q % BLOCK_CAPACITY];
          }
        }
      }
    }
    assert job.InfoOk(last, i + 1);
  }

  /** Any other row: the tuple only enters the write buffer. */
  method WriteSlot(job: Job, i: nat, lines: array2<PartitionTuple>, last: array<LastSlot>,
                   output: array<PartitionTuple>)
    requires i < |job.column| && Progress(job, i, lines, last, output)
    requires !CompletesLine(job, i)
    modifies lines, last
    ensures Progress(job, i + 1, lines, last, output)
  {
    hide Job.Bucket, Job.Layout, Job.Position, Job.Target, Job.Offset, Job.PartOf;
    var p := job.PartOf(job.column[i]);
    job.RowPosition(i);
    ghost var pos := job.Position(p, i);
    var slot := last[p].bufferSlot;
    lines[p, slot] := PartitionTuple(job.column[i], i);
    last[p] := Info(last[p].tupleSlot, slot + 1);
    forall p' | 0 <= p' < job.Count()
      ensures job.LineOk(lines, p', i + 1)
      ensures job.OutputOk(output[..], p', job.Position(p', i + 1) / BLOCK_CAPACITY * BLOCK_CAPACITY)
      ensures last[p'] == Info(job.Position(p', i + 1) / BLOCK_CAPACITY, job.Position(p', i + 1) % BLOCK_CAPACITY)
    {
      assert old(job.LineOk(lines, p', i));
      assert old(job.OutputOk(output[..], p', job.Position(p', i) / BLOCK_CAPACITY * BLOCK_CAPACITY));
      if p' != p {
        OthersWait(job, i, p');
      }
    }
    assert job.InfoOk(last, i + 1);
  }

  /** One row of the main loop. Output only changes when the row fills the last
      slot of a line its partition owns, and then only in that line. */
  method WriteRow(job: Job, i: nat, lines: array2<PartitionTuple>, last: array<LastSlot>, output: array<PartitionTuple>)
    requires i < |job.column| && Progress(job, i, lines, last, output)
    modifies lines, last, output
    ensures Progress(job, i + 1, lines, last, output)
    ensures forall q | 0 <= q < output.Length && output[q] != old(output[q]) ::
              CompletesLine(job, i) && q / BLOCK_CAPACITY == LineOf(job, i)
  {
    var p := job.PartOf(job.column[i]);
    if last[p].bufferSlot == BLOCK_CAPACITY - 1 {
      WriteLastSlot(job, i, lines, last, output);
    } else {
      WriteSlot(job, i, lines, last, output);
    }
  }

  ghost predicate CompletesLine(job: Job, i: nat)
    requires i < |job.column|
  {
    job.Position(job.PartOf(job.column[i]), i) % BLOCK_CAPACITY == BLOCK_CAPACITY - 1
  }

  ghost function LineOf(job: Job, i: nat): (line: nat)
    requires i < |job.column|
  {
    job.Position(job.PartOf(job.column[i]), i) / BLOCK_CAPACITY
  }

  /** Each output line is flushed by at most one row, and that row belongs to
      the partition that owns the line's last slot. */
  lemma FlushedOnce(job: Job, i: nat, j: nat)
    requires i < j < |job.column| && CompletesLine(job, i) && CompletesLine(job, j)
    ensures LineOf(job, i) != LineOf(job, j)
    ensures job.Owns(job.PartOf(job.column[i]), LineOf(job, i) * BLOCK_CAPACITY + BLOCK_CAPACITY - 1)
  {
    job.RowPosition(i);
    job.RowPosition(j);
    assert job.Target()[job.Position(job.PartOf(job.column[i]), i)].tupleId == i;
  }

  /** Writes what is left in the buffer of partition p. */
  method WriteRest(job: Job, p: nat, lines: array2<PartitionTuple>, last: array<LastSlot>,
                   output: array<PartitionTuple>,
                   originalTupleSlot: nat, originalBufferSlot: nat)
    requires p < job.Count() == last.Length == lines.Length0 && lines.Length1 == BLOCK_CAPACITY - 1
    requires |job.Target()| == |job.column| <= output.Length
    requires originalTupleSlot == job.Offset(p) / BLOCK_CAPACITY && originalBufferSlot == job.Offset(p) % BLOCK_CAPACITY
    requires job.InfoOk(last, |job.column|) && job.LineOk(lines, p, |job.column|)
    requires job.Pending(output[..], p)
    modifies output
    ensures job.Done(output[..], p)
    ensures forall k | 0 <= k < job.Count() && k != p && old(job.Done(output[..], k)) :: job.Done(output[..], k)
    ensures forall k | 0 <= k < job.Count() && k != p && old(job.Pending(output[..], k)) :: job.Pending(output[..], k)
  {
    hide Job.Bucket, Job.Layout, Job.Position, Job.Target, Job.Offset, Job.PartOf;
    job.PositionBounds(p, |job.column|);
    var tupleSlot, bufferSlot := last[p].tupleSlot, last[p].bufferSlot;
    var first := if originalTupleSlot != tupleSlot then 0 else originalBufferSlot;
    for k := first to bufferSlot
      invariant forall q | job.Offset(p) <= q < tupleSlot * BLOCK_CAPACITY + k :: output[q] == job.Target()[q]
      invariant forall q | 0 <= q < output.Length && !job.Owns(p, q) :: output[q] == old(output[q])
    {
      output[tupleSlot * BLOCK_CAPACITY + k] := lines[p, k];
    }
    RestKeeps(job, p, old(output[..]), output[..]);
  }

  /** The write position each partition starts from. */
  method PrepareLines(job: Job, histogram: array<nat>, last: array<LastSlot>)
    returns (starts: seq<nat>, originalTupleSlots: seq<nat>, originalBufferSlots: seq<nat>)
    requires histogram.Length == last.Length == job.Count()
    requires forall p | 0 <= p < job.Count() :: histogram[p] == |job.Bucket(p, |job.column|)|
    modifies last
    ensures job.InfoOk(last, 0)
    ensures |starts| == |originalTupleSlots| == |originalBufferSlots| == job.Count()
    ensures forall p | 0 <= p < job.Count() :: StartOk(job, p, starts[p], originalTupleSlots[p], originalBufferSlots[p])
  {
    starts, originalTupleSlots, originalBufferSlots := [], [], [];
    var partitionOffset := 0;
    for p := 0 to job.Count()
      invariant partitionOffset == job.Offset(p)
      invariant forall k | 0 <= k < p :: last[k] == Info(job.Offset(k) / BLOCK_CAPACITY, job.Offset(k) % BLOCK_CAPACITY)
      invariant |starts| == |originalTupleSlots| == |originalBufferSlots| == p
      invariant forall k | 0 <= k < p :: StartOk(job, k, starts[k], originalTupleSlots[k], originalBufferSlots[k])
    {
      last[p] := Info(partitionOffset / BLOCK_CAPACITY, partitionOffset % BLOCK_CAPACITY);
      originalTupleSlots := originalTupleSlots + [last[p].tupleSlot];
      originalBufferSlots := originalBufferSlots + [last[p].bufferSlot];
      starts := starts + [partitionOffset];
      partitionOffset := partitionOffset + histogram[p];
    }
  }

  ghost predicate StartOk(job: Job, p: nat, start: nat, tupleSlot: nat, bufferSlot: nat) {
    start == job.Offset(p) && tupleSlot == start / BLOCK_CAPACITY && bufferSlot == start % BLOCK_CAPACITY
  }

  /** Writes what the buffers still hold, partition by partition. */
  method WriteAllRests(job: Job, lines: array2<PartitionTuple>, last: array<LastSlot>, output: array<PartitionTuple>,
                       originalTupleSlots: seq<nat>, originalBufferSlots: seq<nat>)
    requires Progress(job, |job.column|, lines, last, output)
    requires |originalTupleSlots| == |originalBufferSlots| == job.Count()
    requires forall p | 0 <= p < job.Count() ::
               StartOk(job, p, job.Offset(p), originalTupleSlots[p], originalBufferSlots[p])
    modifies output
    ensures forall p | 0 <= p < job.Count() :: job.Done(output[..], p)
  {
    hide Job.Bucket, Job.Layout, Job.Position, Job.Target, Job.Offset, Job.OutputOk;
    assert forall p | 0 <= p < job.Count() :: job.Pending(output[..], p);
    for p := 0 to job.Count()
      invariant forall k | 0 <= k < p :: job.Done(output[..], k)
      invariant forall k | p <= k < job.Count() :: job.Pending(output[..], k)
    {
      WriteRest(job, p, lines, last, output, originalTupleSlots[p], originalBufferSlots[p]);
    }
  }

  /** Writing the rest of one partition leaves the others as they are. */
  lemma RestKeeps(job: Job, p: nat, before: seq<PartitionTuple>, after: seq<PartitionTuple>)
    requires p < job.Count() && |job.Target()| <= |before| == |after|
    requires forall q | 0 <= q < |after| && !job.Owns(p, q) :: after[q] == before[q]
    ensures forall k | 0 <= k < job.Count() && k != p && job.Done(before, k) :: job.Done(after, k)
    ensures forall k | 0 <= k < job.Count() && k != p && job.Pending(before, k) :: job.Pending(after, k)
  {
    forall k, q | 0 <= k < job.Count() && k != p && job.Offset(k) <= q < job.Offset(k + 1)
      ensures !job.Owns(p, q)
    {
      if job.Owns(p, q) { job.OneOwner(p, k, q); }
    }
    forall k | 0 <= k < job.Count()
      ensures job.Position(k, |job.column|) == job.Offset(k + 1)
    {
      job.PositionBounds(k, |job.column|);
    }
  }

  /** The partition lists, by increasing tuple id, the rows whose hash ends in the
      digits of p. */
  ghost predicate ListsByDigits(partition: seq<PartitionTuple>, column: seq<Value>, hash: Hash, numRadixBits: nat,
                                p: nat) {
    && (forall i, j | 0 <= i < j < |partition| :: partition[i].tupleId < partition[j].tupleId)
    && forall t :: t in partition <==> RowByDigits(t, column, hash, numRadixBits, p)
  }

  ghost predicate RowByDigits(t: PartitionTuple, column: seq<Value>, hash: Hash, numRadixBits: nat, p: nat) {
    && t.tupleId < |column| && t.value == column[t.tupleId]
    && forall j: nat | j < numRadixBits :: Digit(p, j) <==> Digit(hash(t.value), j)
  }

  lemma BucketByDigits(column: seq<Value>, hash: Hash, numRadixBits: nat, p: nat)
    requires p < Pow2(numRadixBits)
    ensures ListsByDigits(Job(column, hash, numRadixBits).Bucket(p, |column|), column, hash, numRadixBits, p)
  {
    var job := Job(column, hash, numRadixBits);
    var b := job.Bucket(p, |column|);
    job.BucketIsExact(p, |column|);
    hide Job.Bucket, RowByDigits;
    forall t: PartitionTuple
      ensures t in b <==> RowByDigits(t, column, hash, numRadixBits, p)
    {
      RowByRemainder(t, column, hash, numRadixBits, p);
    }
  }

  lemma RowByRemainder(t: PartitionTuple, column: seq<Value>, hash: Hash, numRadixBits: nat, p: nat)
    requires p < Pow2(numRadixBits)
    ensures RowByDigits(t, column, hash, numRadixBits, p)
            <==> t.tupleId < |column| && t.value == column[t.tupleId]
                 && Job(column, hash, numRadixBits).PartOf(t.value) == p
  {
    RemainderByDigits(hash(t.value), numRadixBits, p);
    hide Digit, Pow2;
  }

  /** Partition p is the slice at its histogram prefix and holds exactly the rows
      whose hash ends in the digits of p, by increasing tuple id. */
  method Partition(column: seq<Value>, hash: Hash, numRadixBits: nat) returns (partitions: seq<seq<PartitionTuple>>)
    requires numRadixBits > 0
    ensures var job := Job(column, hash, numRadixBits);
            |partitions| == job.Count() &&
            forall p | 0 <= p < job.Count() :: partitions[p] == job.Bucket(p, |column|)
    ensures |partitions| == Pow2(numRadixBits)
    ensures forall p, i, j | 0 <= p < |partitions| && 0 <= i < j < |partitions[p]| ::
              partitions[p][i].tupleId < partitions[p][j].tupleId
    ensures forall p, t | 0 <= p < |partitions| ::
              t in partitions[p] <==>
                && t.tupleId < |column| && t.value == column[t.tupleId]
                && forall j: nat | j < numRadixBits :: Digit(p, j) <==> Digit(hash(t.value), j)
  {
    partitions := PartitionJob(column, hash, numRadixBits);
    assert Job(column, hash, numRadixBits).Count() == Pow2(numRadixBits);
    hide *;
    forall p | 0 <= p < |partitions|
      ensures ListsByDigits(partitions[p], column, hash, numRadixBits, p)
    {
      BucketByDigits(column, hash, numRadixBits, p);
    }
    ListsMean(partitions, column, hash, numRadixBits);
  }

  lemma ListsMean(partitions: seq<seq<PartitionTuple>>, column: seq<Value>, hash: Hash, numRadixBits: nat)
    requires forall p | 0 <= p < |partitions| :: ListsByDigits(partitions[p], column, hash, numRadixBits, p)
    ensures forall p, i, j | 0 <= p < |partitions| && 0 <= i < j < |partitions[p]| ::
              partitions[p][i].tupleId < partitions[p][j].tupleId
    ensures forall p, t | 0 <= p < |partitions| ::
              t in partitions[p] <==>
                && t.tupleId < |column| && t.value == column[t.tupleId]
                && forall j: nat | j < numRadixBits :: Digit(p, j) <==> Digit(hash(t.value), j)
  {
    hide Digit;
  }

  method PartitionJob(column: seq<Value>, hash: Hash, numRadixBits: nat) returns (partitions: seq<seq<PartitionTuple>>)
    ensures var job := Job(column, hash, numRadixBits);
            |partitions| == job.Count() &&
            forall p | 0 <= p < job.Count() :: partitions[p] == job.Bucket(p, |column|)
  {
    var job := Job(column, hash, numRadixBits);
    var histogram := Histogram(job);
    var lines := new PartitionTuple[job.Count(), BLOCK_CAPACITY - 1];
    var last := new LastSlot[job.Count()];
    var output := new PartitionTuple[(|column| + BLOCK_CAPACITY - 1) / BLOCK_CAPACITY * BLOCK_CAPACITY];
    var starts, originalTupleSlots, originalBufferSlots := PrepareLines(job, histogram, last);
    job.TargetIsComplete();
    assert Progress(job, 0, lines, last, output);
    hide Progress;
    WriteRows(job, lines, last, output);
    WriteAllRests(job, lines, last, output, originalTupleSlots, originalBufferSlots);
    OutputSize(job, lines, last, output);
    partitions := Views(job, output[..], starts, histogram);
  }

  lemma OutputSize(job: Job, lines: array2<PartitionTuple>, last: array<LastSlot>, output: array<PartitionTuple>)
    ensures Progress(job, |job.column|, lines, last, output) ==> |job.Target()| <= output.Length
  {
  }

  /** The main loop over the rows. */
  method WriteRows(job: Job, lines: array2<PartitionTuple>, last: array<LastSlot>, output: array<PartitionTuple>)
    requires Progress(job, 0, lines, last, output)
    modifies lines, last, output
    ensures Progress(job, |job.column|, lines, last, output)
  {
    hide *;
    for i := 0 to |job.column|
      invariant Progress(job, i, lines, last, output)
    {
      WriteRow(job, i, lines, last, output);
    }
  }

  method Views(job: Job, output: seq<PartitionTuple>, starts: seq<nat>, histogram: array<nat>)
    returns (partitions: seq<seq<PartitionTuple>>)
    requires |starts| == histogram.Length == job.Count() && |job.Target()| <= |output|
    requires forall p | 0 <= p < job.Count() ::
               job.Done(output, p) && starts[p] == job.Offset(p) && histogram[p] == |job.Bucket(p, |job.column|)|
    ensures |partitions| == job.Count()
    ensures forall p | 0 <= p < job.Count() :: partitions[p] == job.Bucket(p, |job.column|)
  {
    hide *;
    partitions := [];
    for p := 0 to job.Count()
      invariant |partitions| == p
      invariant forall k | 0 <= k < p :: partitions[k] == job.Bucket(k, |job.column|)
    {
      ViewIsBucket(job, output, p);
      partitions := partitions + [output[starts[p]..starts[p] + histogram[p]]];
    }
  }

  lemma ViewIsBucket(job: Job, output: seq<PartitionTuple>, p: nat)
    requires p < job.Count() && |job.Target()| <= |output| && job.Done(output, p)
    ensures job.Offset(p) + |job.Bucket(p, |job.column|)| <= |output|
    ensures output[job.Offset(p)..job.Offset(p) + |job.Bucket(p, |job.column|)|] == job.Bucket(p, |job.column|)
  {
    job.PartitionOfTarget(p);
    assert output[job.Offset(p)..job.Offset(p + 1)] == job.Target()[job.Offset(p)..job.Offset(p + 1)];
  }
}
