/** The part of the chunk stream that one plan sees. */
module ChunkStream {
  import opened RadixPartition
  import opened PartitionAssigner
  import opened Tallies
  import opened HashJoin
  import opened JoinMeaning

  /** The joined pairs of the chunks of table t and group g, in stream order. */
  ghost function SeenOf(cs: seq<PartitionChunk>, t: nat, g: nat, bindings: Job): (ps: seq<Pair>) {
    if cs == [] then []
    else
      var c := cs[|cs| - 1];
      SeenOf(cs[..|cs| - 1], t, g, bindings) + Contribution(c, t, g, bindings)
  }

  ghost function Contribution(c: PartitionChunk, t: nat, g: nat, bindings: Job): (ps: seq<Pair>) {
    if c.tableId == t && c.joinGroupId == g then Joined(bindings.Bucket(c.partitionId, |bindings.column|), c.tuples)
    else []
  }

  lemma NothingSeen(t: nat, g: nat, bindings: Job)
    ensures SeenOf([], t, g, bindings) == []
  {
  }

  lemma SeenSnoc(cs: seq<PartitionChunk>, c: PartitionChunk, t: nat, g: nat, bindings: Job)
    ensures SeenOf(cs + [c], t, g, bindings)
         == SeenOf(cs, t, g, bindings) + Contribution(c, t, g, bindings)
  {
    assert (cs + [c])[..|cs|] == cs;
  }

  lemma {:induction false} SeenConcat(a: seq<PartitionChunk>, b: seq<PartitionChunk>, t: nat, g: nat, bindings: Job)
    ensures SeenOf(a + b, t, g, bindings) == SeenOf(a, t, g, bindings) + SeenOf(b, t, g, bindings)
  {
    hide Contribution;
    if b == [] {
      assert a + b == a;
    } else {
      var init, c := b[..|b| - 1], b[|b| - 1];
      SeenConcat(a, init, t, g, bindings);
      assert a + b == (a + init) + [c] && b == init + [c];
      SeenSnoc(a + init, c, t, g, bindings);
      SeenSnoc(init, c, t, g, bindings);
      hide SeenOf;
    }
  }

  lemma {:induction false} JoinedConcat(part: seq<PartitionTuple>, a: seq<PartitionTuple>, b: seq<PartitionTuple>)
    ensures Joined(part, a + b) == Joined(part, a) + Joined(part, b)
  {
    hide PairsOf;
    if b == [] {
      assert a + b == a;
    } else {
      var init, x := b[..|b| - 1], b[|b| - 1];
      JoinedConcat(part, a, init);
      assert a + b == (a + init) + [x] && b == init + [x];
      JoinedSnoc(part, a + init, x);
      JoinedSnoc(part, init, x);
      hide Joined;
    }
  }

  lemma JoinedSnoc(part: seq<PartitionTuple>, tuples: seq<PartitionTuple>, x: PartitionTuple)
    ensures Joined(part, tuples + [x]) == Joined(part, tuples) + PairsOf(part, x)
  {
    hide PairsOf;
    assert (tuples + [x])[..|tuples|] == tuples;
  }

  /** The work is the partitioned fact tables, hashed like the bindings. */
  ghost predicate Partitioned(w: Work, bindings: Job) {
    && w.Valid() && w.numPartitions == bindings.Count()
    && forall t, g | 0 <= t < |w.tables| && 0 <= g < |w.columnIds[t]| ::
         w.columnIds[t][g] < |w.tables[t].columns|
         && forall p | 0 <= p < w.numPartitions ::
              w.Part(p, t, g) == KeyJoinOf(w, t, g, bindings).FactPart(p)
  }

  function KeyJoinOf(w: Work, t: nat, g: nat, bindings: Job): (k: KeyJoin)
    requires t < |w.tables| && t < |w.columnIds| && g < |w.columnIds[t]| && w.columnIds[t][g] < |w.tables[t].columns|
  {
    KeyJoin(w.tables[t].columns[w.columnIds[t][g]], bindings.column, bindings.hash, bindings.numRadixBits)
  }

  lemma {:induction false} ChunksSeen(w: Work, p: nat, t': nat, g': nat, offset: nat, t: nat, g: nat, bindings: Job)
    requires w.Valid() && p < w.numPartitions && t' < |w.tables| && g' < |w.columnIds[t']|
             && offset <= |w.Part(p, t', g')|
    ensures SeenOf(w.ChunksFrom(p, t', g', offset), t, g, bindings)
         == if t' == t
            && g' == g then Joined(bindings.Bucket(p, |bindings.column|), w.Part(p, t', g')[offset..]) else []
    decreases |w.Part(p, t', g')| - offset
  {
    hide Joined, Job.Bucket, Work.Part, SeenOf;
    NothingSeen(t, g, bindings);
    var part := w.Part(p, t', g');
    if offset < |part| {
      var n := if w.chunkSize <= |part| - offset then w.chunkSize else |part| - offset;
      var c := PartitionChunk(t', g', p, part[offset..offset + n]);
      ChunksSeen(w, p, t', g', offset + n, t, g, bindings);
      FirstChunkSeen(c, w.ChunksFrom(p, t', g', offset + n), t, g, bindings);
      JoinedConcat(bindings.Bucket(p, |bindings.column|), c.tuples, part[offset + n..]);
      assert part[offset..] == c.tuples + part[offset + n..];
    } else {
      assert part[offset..] == [];
      JoinedNothing(bindings.Bucket(p, |bindings.column|));
    }
  }

  lemma JoinedNothing(part: seq<PartitionTuple>)
    ensures Joined(part, []) == []
  {
  }

  lemma FirstChunkSeen(c: PartitionChunk, rest: seq<PartitionChunk>, t: nat, g: nat, bindings: Job)
    ensures SeenOf([c] + rest, t, g, bindings) == Contribution(c, t, g, bindings) + SeenOf(rest, t, g, bindings)
  {
    SeenConcat([c], rest, t, g, bindings);
    SeenSnoc([], c, t, g, bindings);
    NothingSeen(t, g, bindings);
    hide SeenOf, Contribution;
    assert [] + [c] == [c];
  }

  lemma {:induction false} GroupsSeen(w: Work, p: nat, t': nat, g': nat, t: nat, g: nat, bindings: Job)
    requires w.Valid() && p < w.numPartitions && t' < |w.tables| && g' <= |w.columnIds[t']|
    requires t < |w.tables| && g < |w.columnIds[t]|
    ensures SeenOf(w.GroupsFrom(p, t', g'), t, g, bindings)
         == if t' == t && g' <= g then Joined(bindings.Bucket(p, |bindings.column|), w.Part(p, t, g)) else []
    decreases |w.columnIds[t']| - g'
  {
    hide Joined, Job.Bucket, Work.ChunksFrom, SeenOf;
    NothingSeen(t, g, bindings);
    if g' < |w.columnIds[t']| {
      ChunksSeen(w, p, t', g', 0, t, g, bindings);
      GroupsSeen(w, p, t', g' + 1, t, g, bindings);
      SeenConcat(w.ChunksFrom(p, t', g', 0), w.GroupsFrom(p, t', g' + 1), t, g, bindings);
      assert w.Part(p, t', g')[0..] == w.Part(p, t', g');
    }
  }

  lemma {:induction false} TablesSeen(w: Work, p: nat, t': nat, t: nat, g: nat, bindings: Job)
    requires w.Valid() && p < w.numPartitions && t' <= |w.tables| && t < |w.tables| && g < |w.columnIds[t]|
    ensures SeenOf(w.TablesFrom(p, t'), t, g, bindings)
         == if t' <= t then Joined(bindings.Bucket(p, |bindings.column|), w.Part(p, t, g)) else []
    decreases |w.tables| - t'
  {
    hide Joined, Job.Bucket, Work.GroupsFrom, SeenOf;
    NothingSeen(t, g, bindings);
    if t' < |w.tables| {
      GroupsSeen(w, p, t', 0, t, g, bindings);
      TablesSeen(w, p, t' + 1, t, g, bindings);
      SeenConcat(w.GroupsFrom(p, t', 0), w.TablesFrom(p, t' + 1), t, g, bindings);
    }
  }

  /** Over the whole stream a plan sees every equal pair of its join group. */
  lemma {:induction false} WholeStreamSeen(w: Work, p: nat, t: nat, g: nat, bindings: Job)
    requires Partitioned(w, bindings) && p <= w.numPartitions && t < |w.tables| && g < |w.columnIds[t]|
    ensures SeenOf(w.PartitionsFrom(p), t, g, bindings) == KeyJoinOf(w, t, g, bindings).JoinedFrom(p)
    decreases w.numPartitions - p
  {
    hide Joined, Job.Bucket, Work.TablesFrom, SeenOf;
    NothingSeen(t, g, bindings);
    if p < w.numPartitions {
      TablesSeen(w, p, 0, t, g, bindings);
      WholeStreamSeen(w, p + 1, t, g, bindings);
      SeenConcat(w.TablesFrom(p, 0), w.PartitionsFrom(p + 1), t, g, bindings);
      assert w.Part(p, t, g) == KeyJoinOf(w, t, g, bindings).FactPart(p);
    }
  }

  // ---------------------------------------------------------------------
  // The stream is partition-major
  // ---------------------------------------------------------------------

  /** Partition ids never decrease along the stream. */
  lemma PartitionMajor(w: Work, a: seq<PartitionChunk>, c: PartitionChunk, b: seq<PartitionChunk>)
    requires w.Valid() && a + [c] + b == w.PartitionsFrom(0)
    ensures w.Slice(c) && forall x | x in a :: x.partitionId <= c.partitionId
  {
    assert c in a + [c] + b;
    w.EmittedAreSlices(c, 0);
    SortedFrom(w, 0);
    forall x | x in a
      ensures x.partitionId <= c.partitionId
    {
      var i :| 0 <= i < |a| && a[i] == x;
      var all := a + [c] + b;
      assert all[i] == x && all[|a|] == c;
    }
  }

  lemma {:induction false} SortedFrom(w: Work, p: nat)
    requires w.Valid() && p <= w.numPartitions
    ensures forall i, j | 0 <= i < j < |w.PartitionsFrom(p)| ::
              w.PartitionsFrom(p)[i].partitionId <= w.PartitionsFrom(p)[j].partitionId
    decreases w.numPartitions - p
  {
    if p < w.numPartitions {
      SortedFrom(w, p + 1);
      var here, rest := w.TablesFrom(p, 0), w.PartitionsFrom(p + 1);
      forall c | c in here
        ensures c.partitionId == p
      {
        w.TablesAreSlices(c, p, 0);
      }
      forall c | c in rest
        ensures c.partitionId >= p + 1
      {
        w.EmittedAreSlices(c, p + 1);
      }
      forall i, j | 0 <= i < j < |here + rest|
        ensures (here + rest)[i].partitionId <= (here + rest)[j].partitionId
      {
        if i < |here| {
          assert here[i] in here;
          if j < |here| { assert here[j] in here; } else { assert rest[j - |here|] in rest; }
        }
      }
    }
  }
}
