/** The hash join over several columns that materialises the bindings of an
    accepted literal (operations/MultiColumnHashJoin.cpp). */
module MultiColumnJoin {
  import opened Bits
  import opened RadixPartition
  import opened HashTable
  import opened Tallies
  import opened Bindings
  import opened KeyColumns
  import opened JoinMeaning

  /** A row of the probe table with a row of the build table. */
  datatype TidPair = TidPair(probe: nat, build: nat)

  // ---------------------------------------------------------------------
  // The join by row numbers
  // ---------------------------------------------------------------------

  ghost function Paired(probe: nat, builds: seq<nat>): (ps: seq<TidPair>) {
    seq(|builds|, k requires 0 <= k < |builds| => TidPair(probe, builds[k]))
  }

  /** The first n probe rows with their matches, in the order they are found. */
  ghost function JoinedTids(probeKeys: seq<Key>, buildKeys: seq<Key>, n: nat): (ps: seq<TidPair>)
    requires n <= |probeKeys|
  {
    if n == 0 then []
    else JoinedTids(probeKeys, buildKeys, n - 1) + Paired(n - 1, MatchesOf(probeKeys, buildKeys, n - 1))
  }

  /** The build rows with the key of a probe row, in the order they are found. */
  ghost function MatchesOf(probeKeys: seq<Key>, buildKeys: seq<Key>, tid: nat): (builds: seq<nat>)
    requires tid < |probeKeys|
  {
    Matches(buildKeys, probeKeys[tid], |buildKeys|)
  }

  /** Every pair of rows with equal keys, exactly once. */
  lemma {:induction false} JoinedTidsAreExact(probeKeys: seq<Key>, buildKeys: seq<Key>, n: nat)
    requires n <= |probeKeys|
    ensures forall q :: q in JoinedTids(probeKeys, buildKeys, n)
                        <==> q.probe < n && q.build < |buildKeys| && probeKeys[q.probe] == buildKeys[q.build]
    ensures Distinct(JoinedTids(probeKeys, buildKeys, n))
  {
    if n > 0 {
      JoinedTidsAreExact(probeKeys, buildKeys, n - 1);
      var m := MatchesOf(probeKeys, buildKeys, n - 1);
      MatchesAreExact(buildKeys, probeKeys[n - 1], |buildKeys|);
      var init, last := JoinedTids(probeKeys, buildKeys, n - 1), Paired(n - 1, m);
      forall q
        ensures q in last <==> q.probe == n - 1 && q.build in m
      {
        if q.probe == n - 1 && q.build in m {
          var k :| 0 <= k < |m| && m[k] == q.build;
          assert last[k] == q;
        }
      }
      assert Distinct(last) by {
        forall i, j | 0 <= i < j < |last|
          ensures last[i] != last[j]
        {
          assert m[i] != m[j];
        }
      }
      forall q
        ensures q in init + last <==> q in init || q in last
      {
      }
      DistinctConcat(init, last);
    }
  }

  lemma {:induction false} JoinedTidsGrow(probeKeys: seq<Key>, buildKeys: seq<Key>, n: nat, m: nat)
    requires n <= m <= |probeKeys|
    ensures JoinedTids(probeKeys, buildKeys, n) <= JoinedTids(probeKeys, buildKeys, m)
    decreases m
  {
    if n < m {
      JoinedTidsGrow(probeKeys, buildKeys, n, m - 1);
    }
  }

  // ---------------------------------------------------------------------
  // Probing one block
  // ---------------------------------------------------------------------

  method RowsEqual(probe: JoinSide, build: JoinSide, tid: nat, position: nat) returns (equal: bool)
    requires probe.Valid() && build.Valid() && |probe.keys| == |build.keys|
    requires tid < Rows(probe.columns) && position < Rows(build.columns)
    ensures equal <==> build.KeyRows()[position] == probe.KeyRows()[tid]
  {
    probe.KeyOfRow(tid);
    build.KeyOfRow(position);
    hide JoinSide.KeyRows;
    equal := VectorEqualAt(Dispatched(|probe.keys|), probe.KeyValues(), build.KeyValues(), tid, position);
  }

  method BucketOfRow(table: FoilHashTable, probe: JoinSide, hashing: Hashing, tid: nat) returns (bucketId: nat)
    requires probe.Valid() && tid < Rows(probe.columns) && table.numBuckets > 0
    ensures bucketId == table.BucketId(hashing.OfKey()(probe.KeyRows()[tid]))
  {
    probe.KeyOfRow(tid);
    hide JoinSide.KeyRows;
    var hashValue := hashing.HashAt(Dispatched(|probe.keys|), probe.KeyValues(), tid);
    bucketId := table.BucketId(hashValue);
  }

  /** What is left of the chain from a 1-based position completes the matches. */
  ghost predicate RestOfChain(table: FoilHashTable, keys: seq<Key>, key: Key, positions: seq<nat>, head: int) {
    && 0 <= head <= |keys| == |table.next| && DescendingLinks(table.next, head)
    && positions + WithKey(Chain(table.next, head), keys, key) == Matches(keys, key, |keys|)
  }

  lemma NextInChain(table: FoilHashTable, keys: seq<Key>, key: Key, positions: seq<nat>, head: int)
    requires RestOfChain(table, keys, key, positions, head) && head > 0
    ensures 0 <= table.next[head - 1] < head
    ensures RestOfChain(table, keys, key, if keys[head - 1] == key then positions + [head - 1] else positions,
                        table.next[head - 1])
  {
    hide Matches;
    assert Chain(table.next, head)[1..] == Chain(table.next, table.next[head - 1]);
  }

  lemma EndOfChain(table: FoilHashTable, probeKeys: seq<Key>, keys: seq<Key>, tid: nat, positions: seq<nat>)
    requires tid < |probeKeys| && RestOfChain(table, keys, probeKeys[tid], positions, 0)
    ensures positions == MatchesOf(probeKeys, keys, tid)
  {
  }

  /** The build positions whose key equals the probe row's. */
  method ProbeKey(table: FoilHashTable, probe: JoinSide, build: JoinSide, hashing: Hashing, tid: nat)
    returns (positions: seq<nat>)
    requires probe.Valid() && build.Valid() && |probe.keys| == |build.keys| && tid < Rows(probe.columns)
    requires Indexes(table, build.KeyRows(), hashing.OfKey())
    ensures positions == MatchesOf(probe.KeyRows(), build.KeyRows(), tid)
  {
    hide *;
    positions := [];
    ChainHasMatches(table, build.KeyRows(), hashing.OfKey(), probe.KeyRows()[tid]);
    var bucketId := BucketOfRow(table, probe, hashing, tid);
    var position := table.buckets[bucketId] - 1;
    while position >= 0
      invariant -1 <= position < |build.KeyRows()| == |table.next|
      invariant RestOfChain(table, build.KeyRows(), probe.KeyRows()[tid], positions, position + 1)
    {
      NextInChain(table, build.KeyRows(), probe.KeyRows()[tid], positions, position + 1);
      var equal := RowsEqual(probe, build, tid, position);
      if equal {
        positions := positions + [position];
      }
      position := table.next[position] - 1;
    }
    EndOfChain(table, probe.KeyRows(), build.KeyRows(), tid, positions);
  }

  lemma ChainHasMatches(table: FoilHashTable, keys: seq<Key>, hash: Key -> nat, key: Key)
    requires Indexes(table, keys, hash)
    ensures table.numBuckets > 0 && |table.buckets| == table.numBuckets && |keys| == |table.next|
    ensures 0 <= table.buckets[table.BucketId(hash(key))] <= |keys|
    ensures RestOfChain(table, keys, key, [], table.buckets[table.BucketId(hash(key))])
  {
    BucketHasAllMatches(keys, key, Slots(keys, hash, table.numBuckets, table.radixBits), table.BucketId(hash(key)),
                        |keys|);
  }

  /** The joined rows of a block as two lists of row numbers, the probe rows
      counted from the start of the block. */
  ghost predicate ListsPairs(probeTids: seq<nat>, buildTids: seq<nat>, start: nat, pairs: seq<TidPair>) {
    && |probeTids| == |buildTids| == |pairs|
    && forall k | 0 <= k < |pairs| :: pairs[k] == TidPair(start + probeTids[k], buildTids[k])
  }

  /** The first n rows of the block have been joined. */
  ghost predicate BlockJoined(probeKeys: seq<Key>, buildKeys: seq<Key>, start: nat, n: nat,
                              probeTids: seq<nat>, buildTids: seq<nat>, pairs: seq<TidPair>)
  {
    && start + n <= |probeKeys| && ListsPairs(probeTids, buildTids, start, pairs)
    && JoinedTids(probeKeys, buildKeys, start + n) == JoinedTids(probeKeys, buildKeys, start) + pairs
  }

  method DoBlockJoin(table: FoilHashTable, probe: JoinSide, build: JoinSide, hashing: Hashing, start: nat,
                     blockSize: nat)
    returns (probeTids: seq<nat>, buildTids: seq<nat>, ghost pairs: seq<TidPair>)
    requires probe.Valid() && build.Valid() && |probe.keys| == |build.keys| && start + blockSize <= Rows(probe.columns)
    requires Indexes(table, build.KeyRows(), hashing.OfKey())
    ensures BlockJoined(probe.KeyRows(), build.KeyRows(), start, blockSize, probeTids, buildTids, pairs)
    ensures |probeTids| == |buildTids|
    ensures PairsUpTo(probe, build, start + blockSize)
            == PairsUpTo(probe, build, start) + Zipped(start, probeTids, buildTids)
  {
    hide *;
    probeTids, buildTids, pairs := [], [], [];
    NothingJoined(probe.KeyRows(), build.KeyRows(), start);
    for tid := 0 to blockSize
      invariant BlockJoined(probe.KeyRows(), build.KeyRows(), start, tid, probeTids, buildTids, pairs)
    {
      var positions := ProbeKey(table, probe, build, hashing, start + tid);
      OneMoreRow(probe.KeyRows(), build.KeyRows(), start, tid, probeTids, buildTids, pairs, positions);
      probeTids := probeTids + seq(|positions|, _ => tid);
      buildTids := buildTids + positions;
      pairs := pairs + Paired(start + tid, positions);
    }
    BlockIsZipped(probe, build, start, blockSize, probeTids, buildTids, pairs);
  }

  /** The pairs that a block's row numbers stand for. */
  ghost function Zipped(start: nat, probeTids: seq<nat>, buildTids: seq<nat>): (pairs: seq<TidPair>)
    requires |probeTids| == |buildTids|
  {
    seq(|probeTids|, k requires 0 <= k < |probeTids| => TidPair(start + probeTids[k], buildTids[k]))
  }

  lemma BlockIsZipped(probe: JoinSide, build: JoinSide, start: nat, blockSize: nat, probeTids: seq<nat>,
                      buildTids: seq<nat>, pairs: seq<TidPair>)
    requires probe.Valid() && build.Valid() && start + blockSize <= Rows(probe.columns)
    requires BlockJoined(probe.KeyRows(), build.KeyRows(), start, blockSize, probeTids, buildTids, pairs)
    ensures |probeTids| == |buildTids|
    ensures PairsUpTo(probe, build, start + blockSize)
            == PairsUpTo(probe, build, start) + Zipped(start, probeTids, buildTids)
  {
    hide JoinSide.Valid, JoinSide.KeyRows, JoinedTids;
    assert pairs == Zipped(start, probeTids, buildTids);
  }

  lemma NothingJoined(probeKeys: seq<Key>, buildKeys: seq<Key>, start: nat)
    requires start <= |probeKeys|
    ensures BlockJoined(probeKeys, buildKeys, start, 0, [], [], [])
  {
  }

  lemma OneMoreRow(probeKeys: seq<Key>, buildKeys: seq<Key>, start: nat, tid: nat,
                   probeTids: seq<nat>, buildTids: seq<nat>, pairs: seq<TidPair>, positions: seq<nat>)
    requires start + tid < |probeKeys| && BlockJoined(probeKeys, buildKeys, start, tid, probeTids, buildTids, pairs)
    requires positions == MatchesOf(probeKeys, buildKeys, start + tid)
    ensures BlockJoined(probeKeys, buildKeys, start, tid + 1, probeTids + seq(|positions|, _ => tid),
                        buildTids + positions,
                        pairs + Paired(start + tid, positions))
  {
    hide JoinedTids, MatchesOf, ListsPairs, Paired;
    ListsMore(probeTids, buildTids, start, tid, pairs, positions);
    NextJoined(probeKeys, buildKeys, start + tid, positions);
    var before, block, more := JoinedTids(probeKeys, buildKeys, start), pairs, Paired(start + tid, positions);
    assert (before + block) + more == before + (block + more);
  }

  lemma NextJoined(probeKeys: seq<Key>, buildKeys: seq<Key>, n: nat, positions: seq<nat>)
    requires n < |probeKeys| && positions == MatchesOf(probeKeys, buildKeys, n)
    ensures JoinedTids(probeKeys, buildKeys, n + 1) == JoinedTids(probeKeys, buildKeys, n) + Paired(n, positions)
  {
    hide MatchesOf, Paired;
  }

  lemma ListsMore(probeTids: seq<nat>, buildTids: seq<nat>, start: nat, tid: nat, pairs: seq<TidPair>,
                  positions: seq<nat>)
    requires ListsPairs(probeTids, buildTids, start, pairs)
    ensures ListsPairs(probeTids + seq(|positions|, _ => tid), buildTids + positions, start,
                       pairs + Paired(start + tid, positions))
  {
  }

  // ---------------------------------------------------------------------
  // Writing to output buffers
  // ---------------------------------------------------------------------

  /** s with the values written over it from a position on. */
  function Spliced(s: seq<Value>, pos: nat, values: seq<Value>): (r: seq<Value>)
    requires pos + |values| <= |s|
    ensures |r| == |s|
  {
    s[..pos] + values + s[pos + |values|..]
  }

  lemma SplicedTwice(s: seq<Value>, pos: nat, first: seq<Value>, second: seq<Value>)
    requires pos + |first| + |second| <= |s|
    ensures Spliced(Spliced(s, pos, first), pos + |first|, second) == Spliced(s, pos, first + second)
  {
  }

  /** Writes to disjoint regions can be swapped. */
  lemma SplicedApart(s: seq<Value>, left: nat, a: seq<Value>, right: nat, b: seq<Value>)
    requires left + |a| <= right && right + |b| <= |s|
    ensures Spliced(Spliced(s, left, a), right, b) == Spliced(Spliced(s, right, b), left, a)
  {
  }

  /** The projected column: below the number of probe columns it is one of
      theirs, from there on one of the build columns. */
  ghost function Projected(column: nat, probe: seq<seq<Value>>, build: seq<seq<Value>>,
                           pairs: seq<TidPair>): (v: seq<Value>)
    ensures |v| == |pairs|
  {
    seq(|pairs|, k requires 0 <= k < |pairs| => Cell(column, probe, build, pairs[k]))
  }

  ghost function Cell(column: nat, probe: seq<seq<Value>>, build: seq<seq<Value>>, q: TidPair): (v: Value) {
    if column < |probe| then ValueAt(probe[column], q.probe)
    else if column - |probe| < |build| then ValueAt(build[column - |probe|], q.build)
    else 0
  }

  ghost function ValueAt(column: seq<Value>, tid: nat): (v: Value) {
    if tid < |column| then column[tid] else 0
  }

  lemma ProjectedConcat(column: nat, probe: seq<seq<Value>>, build: seq<seq<Value>>, a: seq<TidPair>, b: seq<TidPair>)
    ensures Projected(column, probe, build, a + b)
            == Projected(column, probe, build, a) + Projected(column, probe, build, b)
  {
  }

  method WriteToBuffer(tids: seq<nat>, values: seq<Value>, output: array<Value>, pos: nat)
    requires pos + |tids| <= output.Length && forall k | 0 <= k < |tids| :: tids[k] < |values|
    modifies output
    ensures output[..]
            == Spliced(old(output[..]), pos, seq(|tids|, k requires 0 <= k < |tids| => ValueAt(values, tids[k])))
  {
    for k := 0 to |tids|
      invariant forall j | 0 <= j < k :: output[pos + j] == ValueAt(values, tids[j])
      invariant forall j | 0 <= j < output.Length && !(pos <= j < pos + k) :: output[j] == old(output[j])
    {
      output[pos + k] := values[tids[k]];
    }
    assert forall j | pos <= j < pos + |tids| :: output[j] == ValueAt(values, tids[j - pos]);
  }

  /** The part of a probe column that starts with the current block. */
  function From(column: seq<Value>, start: nat): (block: seq<Value>) {
    if start <= |column| then column[start..] else []
  }

  /** The rows of the block exist on both sides. */
  ghost predicate InTables(probe: seq<seq<Value>>, build: seq<seq<Value>>, pairs: seq<TidPair>) {
    && (forall c, k | 0 <= c < |probe| && 0 <= k < |pairs| :: pairs[k].probe < |probe[c]|)
    && (forall c, k | 0 <= c < |build| && 0 <= k < |pairs| :: pairs[k].build < |build[c]|)
  }

  /** Writes one projected column of a block; only the side it is taken from
      needs row numbers. */
  method EvaluateForJoin(column: nat, probe: seq<seq<Value>>, build: seq<seq<Value>>, start: nat,
                         probeTids: seq<nat>, buildTids: seq<nat>, pos: nat, output: array<Value>,
                             ghost pairs: seq<TidPair>)
    requires column < |probe| + |build| && InTables(probe, build, pairs) && pos + |pairs| <= output.Length
    requires column < |probe| ==> |probeTids| == |pairs| && forall k | 0 <= k < |pairs| ::
               pairs[k].probe == start + probeTids[k]
    requires column >= |probe| ==> |buildTids| == |pairs| && forall k | 0 <= k < |pairs| ::
               pairs[k].build == buildTids[k]
    modifies output
    ensures output[..] == Spliced(old(output[..]), pos, Projected(column, probe, build, pairs))
  {
    ghost var before := output[..];
    if column < |probe| {
      var block := From(probe[column], start);
      WriteToBuffer(probeTids, block, output, pos);
      ghost var written := seq(|probeTids|, k requires 0 <= k < |probeTids| => ValueAt(block, probeTids[k]));
      assert written == Projected(column, probe, build, pairs);
    } else {
      WriteToBuffer(buildTids, build[column - |probe|], output, pos);
      ghost var values := build[column - |probe|];
      ghost var written := seq(|buildTids|, k requires 0 <= k < |buildTids| => ValueAt(values, buildTids[k]));
      assert written == Projected(column, probe, build, pairs);
    }
  }

  // ---------------------------------------------------------------------
  // One block into all output buffers
  // ---------------------------------------------------------------------

  ghost predicate DistinctBuffers(outputs: seq<array<Value>>) {
    forall i, j | 0 <= i < j < |outputs| :: outputs[i] != outputs[j]
  }

  /** Which row numbers a join collects. */
  datatype Populate = Populate(probe: bool, build: bool)

  ghost predicate Populated(populate: Populate, probeTids: seq<nat>, buildTids: seq<nat>, start: nat,
                            pairs: seq<TidPair>) {
    && (populate.probe || populate.build)
    && (if populate.probe then |probeTids| == |pairs| && forall k | 0 <= k < |pairs| ::
          pairs[k].probe == start + probeTids[k]
        else probeTids == [])
    && (if populate.build then |buildTids| == |pairs| && forall k | 0 <= k < |pairs| :: pairs[k].build == buildTids[k]
        else buildTids == [])
  }

  /** Every projected column is taken from a side whose rows are collected. */
  ghost predicate ProjectionsOk(projections: seq<nat>, numProbe: nat, numBuild: nat, populate: Populate) {
    forall i | 0 <= i < |projections| ::
      projections[i] < numProbe + numBuild && (if projections[i] < numProbe then populate.probe else populate.build)
  }

  /** The buffers hold these contents. */
  ghost predicate Holds(outputs: seq<array<Value>>, page: seq<seq<Value>>)
    reads set i | 0 <= i < |outputs| :: outputs[i]
  {
    |page| == |outputs| && forall i | 0 <= i < |outputs| :: outputs[i][..] == page[i]
  }

  lemma BuffersHaveLength(outputs: seq<array<Value>>, page: seq<seq<Value>>, length: nat)
    requires Holds(outputs, page) && forall i | 0 <= i < |outputs| :: |page[i]| == length
    ensures forall i | 0 <= i < |outputs| :: outputs[i].Length == length
  {
    forall i | 0 <= i < |outputs|
      ensures outputs[i].Length == length
    {
      assert |outputs[i][..]| == |page[i]|;
    }
  }

  /** The page with the projected columns of the pairs written at a position. */
  ghost function Written(page: seq<seq<Value>>, projections: seq<nat>, probe: seq<seq<Value>>, build: seq<seq<Value>>,
                         pos: nat, pairs: seq<TidPair>): (r: seq<seq<Value>>)
    requires Fits(page, projections, pos + |pairs|)
    ensures Fits(r, projections, pos + |pairs|) && |r| == |page| && forall i | 0 <= i < |r| :: |r[i]| == |page[i]|
  {
    seq(|page|, i requires 0 <= i < |page| => Spliced(page[i], pos, Projected(projections[i], probe, build, pairs)))
  }

  ghost predicate Fits(page: seq<seq<Value>>, projections: seq<nat>, end: nat) {
    |page| == |projections| && forall i | 0 <= i < |page| :: end <= |page[i]|
  }

  lemma WrittenTwice(page: seq<seq<Value>>, projections: seq<nat>, probe: seq<seq<Value>>, build: seq<seq<Value>>,
                     pos: nat, a: seq<TidPair>, b: seq<TidPair>)
    requires Fits(page, projections, pos + |a + b|)
    ensures Fits(page, projections, pos + |a|)
    ensures Fits(Written(page, projections, probe, build, pos, a), projections, pos + |a| + |b|)
    ensures Written(Written(page, projections, probe, build, pos, a), projections, probe, build, pos + |a|, b)
         == Written(page, projections, probe, build, pos, a + b)
  {
    hide Spliced, Projected;
    var once := Written(page, projections, probe, build, pos, a);
    forall i | 0 <= i < |page|
      ensures Written(once, projections, probe, build, pos + |a|, b)[i]
              == Written(page, projections, probe, build, pos, a + b)[i]
    {
      ProjectedConcat(projections[i], probe, build, a, b);
      SplicedTwice(page[i], pos, Projected(projections[i], probe, build, a),
                   Projected(projections[i], probe, build, b));
    }
  }

  lemma WrittenApart(page: seq<seq<Value>>, projections: seq<nat>, probe: seq<seq<Value>>, left: seq<seq<Value>>,
                     right: seq<seq<Value>>,
                     l: nat, a: seq<TidPair>, r: nat, b: seq<TidPair>)
    requires l + |a| <= r && Fits(page, projections, r + |b|)
    ensures Fits(page, projections, l + |a|)
    ensures Written(Written(page, projections, probe, left, l, a), projections, probe, right, r, b)
         == Written(Written(page, projections, probe, right, r, b), projections, probe, left, l, a)
  {
    hide Spliced, Projected;
    forall i | 0 <= i < |page|
      ensures Written(Written(page, projections, probe, left, l, a), projections, probe, right, r, b)[i]
           == Written(Written(page, projections, probe, right, r, b), projections, probe, left, l, a)[i]
    {
      SplicedApart(page[i], l, Projected(projections[i], probe, left, a), r,
                   Projected(projections[i], probe, right, b));
    }
  }

  method WriteBlock(projections: seq<nat>, probe: seq<seq<Value>>, build: seq<seq<Value>>, start: nat,
                    probeTids: seq<nat>,
                    buildTids: seq<nat>, pos: nat, outputs: seq<array<Value>>,
                    ghost populate: Populate, ghost pairs: seq<TidPair>, ghost page: seq<seq<Value>>)
    requires DistinctBuffers(outputs) && Holds(outputs, page) && Fits(page, projections, pos + |pairs|)
    requires ProjectionsOk(projections, |probe|, |build|, populate) && InTables(probe, build, pairs)
    requires Populated(populate, probeTids, buildTids, start, pairs)
    modifies set i | 0 <= i < |outputs| :: outputs[i]
    ensures Holds(outputs, Written(page, projections, probe, build, pos, pairs))
  {
    hide Spliced, Projected, InTables;
    for i := 0 to |projections|
      invariant forall j | 0 <= j < i ::
                  outputs[j][..] == Spliced(page[j], pos, Projected(projections[j], probe, build, pairs))
      invariant forall j | i <= j < |outputs| :: outputs[j][..] == page[j]
    {
      assert |outputs[i][..]| == |page[i]|;
      EvaluateForJoin(projections[i], probe, build, start, probeTids, buildTids, pos, outputs[i], pairs);
    }
  }

  // ---------------------------------------------------------------------
  // Whole joins
  // ---------------------------------------------------------------------

  ghost function AllPairs(probe: JoinSide, build: JoinSide): (pairs: seq<TidPair>)
    requires probe.Valid() && build.Valid()
  {
    JoinedTids(probe.KeyRows(), build.KeyRows(), |probe.KeyRows()|)
  }

  ghost function PairsUpTo(probe: JoinSide, build: JoinSide, n: nat): (pairs: seq<TidPair>)
    requires probe.Valid() && build.Valid() && n <= Rows(probe.columns)
  {
    JoinedTids(probe.KeyRows(), build.KeyRows(), n)
  }

  /** What both joins ask of their two sides. */
  ghost predicate Joinable(probe: JoinSide, build: JoinSide, table: FoilHashTable, hashing: Hashing) {
    && probe.Valid() && build.Valid() && |probe.keys| == |build.keys|
    && Indexes(table, build.KeyRows(), hashing.OfKey())
  }

  /** One block: the row numbers that are collected, and the pairs they stand for. */
  method JoinBlock(probe: JoinSide, build: JoinSide, table: FoilHashTable, hashing: Hashing, populate: Populate,
                   start: nat, blockSize: nat)
    returns (probeTids: seq<nat>, buildTids: seq<nat>, ghost pairs: seq<TidPair>)
    requires Joinable(probe, build, table, hashing) && (populate.probe || populate.build)
    requires start + blockSize <= Rows(probe.columns)
    ensures PairsUpTo(probe, build, start + blockSize) == PairsUpTo(probe, build, start) + pairs
    ensures Populated(populate, probeTids, buildTids, start, pairs) && InTables(probe.columns, build.columns, pairs)
    ensures |PairsUpTo(probe, build, start + blockSize)| <= |AllPairs(probe, build)|
  {
    hide Indexes, JoinSide.KeyRows, JoinSide.Valid, Rows, InTables;
    var allProbeTids, allBuildTids;
    allProbeTids, allBuildTids, pairs := DoBlockJoin(table, probe, build, hashing, start, blockSize);
    probeTids := KeptIf(populate.probe, allProbeTids);
    buildTids := KeptIf(populate.build, allBuildTids);
    BlockIsPopulated(probe, build, start, blockSize, allProbeTids, allBuildTids, pairs, populate);
    BlockInTables(probe, build, start, start + blockSize, pairs);
    PrefixIsNoLonger(probe, build, start + blockSize);
  }

  function KeptIf(keep: bool, tids: seq<nat>): (r: seq<nat>) {
    if keep then tids else []
  }

  lemma PrefixIsNoLonger(probe: JoinSide, build: JoinSide, n: nat)
    requires probe.Valid() && build.Valid() && n <= Rows(probe.columns)
    ensures |PairsUpTo(probe, build, n)| <= |AllPairs(probe, build)|
  {
    hide JoinSide.Valid, JoinSide.KeyRows;
    JoinedTidsGrow(probe.KeyRows(), build.KeyRows(), n, |probe.KeyRows()|);
  }

  lemma BlockIsPopulated(probe: JoinSide, build: JoinSide, start: nat, blockSize: nat, probeTids: seq<nat>,
                         buildTids: seq<nat>,
                         pairs: seq<TidPair>, populate: Populate)
    requires probe.Valid() && build.Valid() && start + blockSize <= Rows(probe.columns)
             && (populate.probe || populate.build)
    requires BlockJoined(probe.KeyRows(), build.KeyRows(), start, blockSize, probeTids, buildTids, pairs)
    ensures PairsUpTo(probe, build, start + blockSize) == PairsUpTo(probe, build, start) + pairs
    ensures Populated(populate, KeptIf(populate.probe, probeTids), KeptIf(populate.build, buildTids), start, pairs)
  {
    hide JoinSide.Valid, JoinSide.KeyRows, JoinedTids;
  }

  lemma BlockInTables(probe: JoinSide, build: JoinSide, start: nat, end: nat, pairs: seq<TidPair>)
    requires probe.Valid() && build.Valid() && start <= end <= Rows(probe.columns)
    requires PairsUpTo(probe, build, end) == PairsUpTo(probe, build, start) + pairs
    ensures InTables(probe.columns, build.columns, pairs)
  {
    var all := PairsUpTo(probe, build, end);
    JoinedTidsAreExact(probe.KeyRows(), build.KeyRows(), end);
    probe.ColumnsHaveRows();
    build.ColumnsHaveRows();
    assert forall q | q in all :: q.probe < Rows(probe.columns) && q.build < Rows(build.columns);
    hide *;
    forall k | 0 <= k < |pairs|
      ensures pairs[k] in all
    {
      InSuffix(all, PairsUpTo(probe, build, start), pairs, k);
    }
    InRangeIsInTables(probe.columns, build.columns, pairs);
  }

  lemma InSuffix(all: seq<TidPair>, before: seq<TidPair>, pairs: seq<TidPair>, k: nat)
    requires all == before + pairs && k < |pairs|
    ensures pairs[k] in all
  {
    assert all[|before| + k] == pairs[k];
  }

  lemma InRangeIsInTables(probe: seq<seq<Value>>, build: seq<seq<Value>>, pairs: seq<TidPair>)
    requires forall c | 0 <= c < |probe| :: |probe[c]| == Rows(probe)
    requires forall c | 0 <= c < |build| :: |build[c]| == Rows(build)
    requires forall k | 0 <= k < |pairs| :: pairs[k].probe < Rows(probe) && pairs[k].build < Rows(build)
    ensures InTables(probe, build, pairs)
  {
    hide Rows;
  }

  /** The first n probe rows are joined and written from base on. */
  ghost predicate JoinedSoFar(probe: JoinSide, build: JoinSide, projections: seq<nat>, outputs: seq<array<Value>>,
                              base: nat,
                              page: seq<seq<Value>>, n: nat, outputOffset: nat)
    reads set i | 0 <= i < |outputs| :: outputs[i]
  {
    && probe.Valid() && build.Valid() && n <= Rows(probe.columns)
    && outputOffset == base + |PairsUpTo(probe, build, n)|
    && Fits(page, projections, outputOffset)
    && Holds(outputs, Written(page, projections, probe.columns, build.columns, base, PairsUpTo(probe, build, n)))
  }

  lemma NothingWritten(probe: JoinSide, build: JoinSide, projections: seq<nat>, outputs: seq<array<Value>>, base: nat,
                       page: seq<seq<Value>>)
    requires probe.Valid() && build.Valid() && Holds(outputs, page) && Fits(page, projections, base)
    ensures JoinedSoFar(probe, build, projections, outputs, base, page, 0, base)
  {
    assert PairsUpTo(probe, build, 0) == [];
    hide PairsUpTo, JoinSide.Valid, JoinSide.KeyRows;
    WrittenNothing(page, projections, probe.columns, build.columns, base);
  }

  lemma WrittenNothing(page: seq<seq<Value>>, projections: seq<nat>, probe: seq<seq<Value>>, build: seq<seq<Value>>,
                       base: nat)
    requires Fits(page, projections, base)
    ensures Written(page, projections, probe, build, base, []) == page
  {
    var r := Written(page, projections, probe, build, base, []);
    assert forall i | 0 <= i < |page| :: r[i] == page[i];
  }

  lemma AllWritten(probe: JoinSide, build: JoinSide, projections: seq<nat>, outputs: seq<array<Value>>, base: nat,
                   page: seq<seq<Value>>, outputOffset: nat)
    requires probe.Valid()
             && JoinedSoFar(probe, build, projections, outputs, base, page, Rows(probe.columns), outputOffset)
    ensures build.Valid() && Fits(page, projections, base + |AllPairs(probe, build)|)
    ensures Holds(outputs, Written(page, projections, probe.columns, build.columns, base, AllPairs(probe, build)))
  {
  }

  lemma NumResults(populate: Populate, probeTids: seq<nat>, buildTids: seq<nat>, start: nat, pairs: seq<TidPair>)
    requires Populated(populate, probeTids, buildTids, start, pairs)
    ensures |pairs| == if populate.build then |buildTids| else |probeTids|
  {
  }

  lemma FitsLess(page: seq<seq<Value>>, projections: seq<nat>, less: nat, end: nat)
    requires Fits(page, projections, end) && less <= end
    ensures Fits(page, projections, less)
  {
  }

  /** Joins the block from start to end and appends it to the output. */
  method JoinNextBlock(probe: JoinSide, build: JoinSide, table: FoilHashTable, hashing: Hashing, projections: seq<nat>,
                       populate: Populate, start: nat, blockSize: nat, outputs: seq<array<Value>>, outputOffset: nat,
                       ghost base: nat, ghost page: seq<seq<Value>>)
    returns (numResults: nat)
    requires Joinable(probe, build, table, hashing) && (populate.probe || populate.build)
    requires ProjectionsOk(projections, |probe.columns|, |build.columns|, populate) && DistinctBuffers(outputs)
    requires JoinedSoFar(probe, build, projections, outputs, base, page, start, outputOffset)
    requires probe.Valid() && build.Valid() && start + blockSize <= Rows(probe.columns)
    requires Fits(page, projections, base + |AllPairs(probe, build)|)
    modifies set i | 0 <= i < |outputs| :: outputs[i]
    ensures JoinedSoFar(probe, build, projections, outputs, base, page, start + blockSize, outputOffset + numResults)
  {
    hide Joinable, JoinSide.Valid, ProjectionsOk, PairsUpTo, AllPairs, DistinctBuffers, Holds, Fits, Written,
        Populated, Rows;
    var probeTids, buildTids, pairs := JoinBlock(probe, build, table, hashing, populate, start, blockSize);
    ghost var soFar := PairsUpTo(probe, build, start);
    FitsLess(page, projections, base + |soFar + pairs|, base + |AllPairs(probe, build)|);
    WrittenTwice(page, projections, probe.columns, build.columns, base, soFar, pairs);
    WriteBlock(projections, probe.columns, build.columns, start, probeTids, buildTids, outputOffset, outputs,
               populate, pairs, Written(page, projections, probe.columns, build.columns, base, soFar));
    NumResults(populate, probeTids, buildTids, start, pairs);
    numResults := if populate.build then |buildTids| else |probeTids|;
  }

  /** The join of one build table, written from a position on. */
  method JoinImpl(probe: JoinSide, build: JoinSide, table: FoilHashTable, hashing: Hashing, projections: seq<nat>,
                  populate: Populate, chunkSize: nat, outputs: seq<array<Value>>, base: nat,
                      ghost page: seq<seq<Value>>)
    requires Joinable(probe, build, table, hashing) && chunkSize > 0 && (populate.probe || populate.build)
    requires ProjectionsOk(projections, |probe.columns|, |build.columns|, populate)
    requires DistinctBuffers(outputs) && Holds(outputs, page)
    requires probe.Valid() && build.Valid() && Fits(page, projections, base + |AllPairs(probe, build)|)
    modifies set i | 0 <= i < |outputs| :: outputs[i]
    ensures Holds(outputs, Written(page, projections, probe.columns, build.columns, base, AllPairs(probe, build)))
  {
    hide *;
    var total := Rows(probe.columns);
    var probeOffset, outputOffset := 0, base;
    ghost var joined := 0;
    FitsLess(page, projections, base, base + |AllPairs(probe, build)|);
    NothingWritten(probe, build, projections, outputs, base, page);
    while probeOffset < total
      invariant joined == if probeOffset < total then probeOffset else total
      invariant JoinedSoFar(probe, build, projections, outputs, base, page, joined, outputOffset)
      decreases total - probeOffset
    {
      var blockSize := if chunkSize < total - probeOffset then chunkSize else total - probeOffset;
      var numResults := JoinNextBlock(probe, build, table, hashing, projections, populate, probeOffset, blockSize,
                                      outputs, outputOffset, base, page);
      outputOffset := outputOffset + numResults;
      probeOffset := probeOffset + chunkSize;
      joined := joined + blockSize;
    }
    AllWritten(probe, build, projections, outputs, base, page, outputOffset);
  }

  // ---------------------------------------------------------------------
  // Two writers on the same buffers
  // ---------------------------------------------------------------------

  /** Both build tables are joined with the first n probe rows, one written from
      base l on, the other from base r on. */
  ghost predicate BothSoFar(probe: JoinSide, left: JoinSide, right: JoinSide, projections: seq<nat>,
                            outputs: seq<array<Value>>,
                            l: nat, r: nat, page: seq<seq<Value>>, n: nat, leftOffset: nat, rightOffset: nat)
    reads set i | 0 <= i < |outputs| :: outputs[i]
  {
    && probe.Valid() && left.Valid() && right.Valid() && n <= Rows(probe.columns)
    && leftOffset == l + |PairsUpTo(probe, left, n)| <= r
    && rightOffset == r + |PairsUpTo(probe, right, n)|
    && Fits(page, projections, rightOffset)
    && Fits(page, projections, leftOffset)
    && Holds(outputs, BothWritten(probe, left, right, projections, l, r, page, n, n))
  }

  ghost function BothWritten(probe: JoinSide, left: JoinSide, right: JoinSide, projections: seq<nat>,
                             l: nat, r: nat, page: seq<seq<Value>>, n: nat, m: nat): (p: seq<seq<Value>>)
    requires probe.Valid() && left.Valid() && right.Valid() && n <= Rows(probe.columns) && m <= Rows(probe.columns)
    requires Fits(page, projections, l + |PairsUpTo(probe, left, n)|)
             && Fits(page, projections, r + |PairsUpTo(probe, right, m)|)
  {
    var once := Written(page, projections, probe.columns, left.columns, l, PairsUpTo(probe, left, n));
    FitsSame(page, once, projections, r + |PairsUpTo(probe, right, m)|);
    Written(once, projections, probe.columns, right.columns, r, PairsUpTo(probe, right, m))
  }

  lemma FitsSame(page: seq<seq<Value>>, page': seq<seq<Value>>, projections: seq<nat>, end: nat)
    requires Fits(page, projections, end) && |page'| == |page| && forall i | 0 <= i < |page| :: |page'[i]| == |page[i]|
    ensures Fits(page', projections, end)
  {
  }

  /** The left writer sees the right writer's rows as part of the page. */
  lemma LeftView(probe: JoinSide, left: JoinSide, right: JoinSide, projections: seq<nat>, outputs: seq<array<Value>>,
                 l: nat, r: nat, page: seq<seq<Value>>, n: nat, m: nat)
    requires probe.Valid() && left.Valid() && right.Valid() && n <= Rows(probe.columns) && m <= Rows(probe.columns)
    requires Fits(page, projections, l + |PairsUpTo(probe, left, n)|)
             && Fits(page, projections, r + |PairsUpTo(probe, right, m)|)
    requires l + |PairsUpTo(probe, left, n)| <= r
    ensures var other := Written(page, projections, probe.columns, right.columns, r, PairsUpTo(probe, right, m));
            Fits(other, projections, l + |PairsUpTo(probe, left, n)|) &&
            (Holds(outputs, BothWritten(probe, left, right, projections, l, r, page, n, m))
             <==> JoinedSoFar(probe, left, projections, outputs, l, other, n, l + |PairsUpTo(probe, left, n)|))
  {
    hide Holds, PairsUpTo, Written, Fits, JoinSide.Valid, Rows;
    var other := Written(page, projections, probe.columns, right.columns, r, PairsUpTo(probe, right, m));
    FitsSame(page, other, projections, l + |PairsUpTo(probe, left, n)|);
    WrittenApart(page, projections, probe.columns, left.columns, right.columns, l, PairsUpTo(probe, left, n), r,
                 PairsUpTo(probe, right, m));
  }

  lemma RightView(probe: JoinSide, left: JoinSide, right: JoinSide, projections: seq<nat>, outputs: seq<array<Value>>,
                  l: nat, r: nat, page: seq<seq<Value>>, n: nat, m: nat)
    requires probe.Valid() && left.Valid() && right.Valid() && n <= Rows(probe.columns) && m <= Rows(probe.columns)
    requires Fits(page, projections, l + |PairsUpTo(probe, left, n)|)
             && Fits(page, projections, r + |PairsUpTo(probe, right, m)|)
    ensures var other := Written(page, projections, probe.columns, left.columns, l, PairsUpTo(probe, left, n));
            Fits(other, projections, r + |PairsUpTo(probe, right, m)|) &&
            (Holds(outputs, BothWritten(probe, left, right, projections, l, r, page, n, m))
             <==> JoinedSoFar(probe, right, projections, outputs, r, other, m, r + |PairsUpTo(probe, right, m)|))
  {
    hide Holds, PairsUpTo, Written, Fits, JoinSide.Valid, Rows;
    var other := Written(page, projections, probe.columns, left.columns, l, PairsUpTo(probe, left, n));
    FitsSame(page, other, projections, r + |PairsUpTo(probe, right, m)|);
  }

  lemma PairsGrow(probe: JoinSide, build: JoinSide, n: nat)
    requires probe.Valid() && build.Valid() && n <= Rows(probe.columns)
    ensures |PairsUpTo(probe, build, n)| <= |AllPairs(probe, build)|
  {
    JoinedTidsGrow(probe.KeyRows(), build.KeyRows(), n, |probe.KeyRows()|);
  }

  method JoinBoth(probe: JoinSide, left: JoinSide, right: JoinSide, leftTable: FoilHashTable,
                  rightTable: FoilHashTable, hashing: Hashing,
                  projections: seq<nat>, populate: Populate, start: nat, blockSize: nat, outputs: seq<array<Value>>,
                  leftOffset: nat, rightOffset: nat, ghost l: nat, ghost r: nat, ghost page: seq<seq<Value>>)
    returns (leftResults: nat, rightResults: nat)
    requires Joinable(probe, left, leftTable, hashing) && Joinable(probe, right, rightTable, hashing)
    requires (populate.probe || populate.build) && |left.columns| == |right.columns|
    requires ProjectionsOk(projections, |probe.columns|, |left.columns|, populate) && DistinctBuffers(outputs)
    requires BothSoFar(probe, left, right, projections, outputs, l, r, page, start, leftOffset, rightOffset)
    requires probe.Valid() && left.Valid() && right.Valid() && start + blockSize <= Rows(probe.columns)
    requires l + |AllPairs(probe, left)| <= r && Fits(page, projections, r + |AllPairs(probe, right)|)
    modifies set i | 0 <= i < |outputs| :: outputs[i]
    ensures BothSoFar(probe, left, right, projections, outputs, l, r, page, start + blockSize,
                      leftOffset + leftResults, rightOffset + rightResults)
  {
    hide Joinable, JoinSide.Valid, ProjectionsOk, PairsUpTo, AllPairs, DistinctBuffers, Holds, Fits, Written, Rows,
        BothWritten, JoinedSoFar;
    var end := start + blockSize;
    PairsGrow(probe, left, start);
    PairsGrow(probe, left, end);
    PairsGrow(probe, right, start);
    PairsGrow(probe, right, end);
    var whole := r + |AllPairs(probe, right)|;
    FitsLess(page, projections, l + |AllPairs(probe, left)|, whole);
    FitsLess(page, projections, l + |PairsUpTo(probe, left, start)|, whole);
    FitsLess(page, projections, l + |PairsUpTo(probe, left, end)|, whole);
    FitsLess(page, projections, r + |PairsUpTo(probe, right, end)|, whole);
    ghost var rightRows := Written(page, projections, probe.columns, right.columns, r, PairsUpTo(probe, right, start));
    FitsSame(page, rightRows, projections, l + |AllPairs(probe, left)|);
    LeftView(probe, left, right, projections, outputs, l, r, page, start, start);
    leftResults := JoinNextBlock(probe, left, leftTable, hashing, projections, populate, start, blockSize, outputs,
                                 leftOffset, l, rightRows);
    LeftView(probe, left, right, projections, outputs, l, r, page, end, start);
    OffsetOf(probe, left, projections, outputs, l, rightRows, end, leftOffset + leftResults);
    ghost var leftRows := Written(page, projections, probe.columns, left.columns, l, PairsUpTo(probe, left, end));
    FitsSame(page, leftRows, projections, whole);
    RightView(probe, left, right, projections, outputs, l, r, page, end, start);
    rightResults := JoinNextBlock(probe, right, rightTable, hashing, projections, populate, start, blockSize, outputs,
                                  rightOffset, r, leftRows);
    RightView(probe, left, right, projections, outputs, l, r, page, end, end);
    OffsetOf(probe, right, projections, outputs, r, leftRows, end, rightOffset + rightResults);
  }

  lemma OffsetOf(probe: JoinSide, build: JoinSide, projections: seq<nat>, outputs: seq<array<Value>>, base: nat,
                 page: seq<seq<Value>>, n: nat, offset: nat)
    requires probe.Valid() && build.Valid() && n <= Rows(probe.columns)
    requires JoinedSoFar(probe, build, projections, outputs, base, page, n, offset)
    ensures offset == base + |PairsUpTo(probe, build, n)|
  {
  }

  /** Joins one probe table with two build tables; the rows of the two joins go
      to disjoint regions of the same buffers. */
  method CollaborateJoinImpl(probe: JoinSide, left: JoinSide, right: JoinSide, leftTable: FoilHashTable,
                             rightTable: FoilHashTable,
                             hashing: Hashing, projections: seq<nat>, populate: Populate, chunkSize: nat,
                             outputs: seq<array<Value>>, l: nat, r: nat, ghost page: seq<seq<Value>>)
    requires Joinable(probe, left, leftTable, hashing) && Joinable(probe, right, rightTable, hashing)
    requires (populate.probe || populate.build) && chunkSize > 0 && |left.columns| == |right.columns|
    requires ProjectionsOk(projections, |probe.columns|, |left.columns|, populate)
    requires DistinctBuffers(outputs) && Holds(outputs, page)
    requires probe.Valid() && left.Valid() && right.Valid()
    requires l + |AllPairs(probe, left)| <= r && Fits(page, projections, r + |AllPairs(probe, right)|)
    modifies set i | 0 <= i < |outputs| :: outputs[i]
    ensures var total := Rows(probe.columns);
            BothSoFar(probe, left, right, projections, outputs, l, r, page, total, l + |AllPairs(probe, left)|,
                      r + |AllPairs(probe, right)|)
  {
    hide *;
    var total := Rows(probe.columns);
    var probeOffset, leftOffset, rightOffset := 0, l, r;
    ghost var joined := 0;
    NeitherWritten(probe, left, right, projections, outputs, l, r, page);
    while probeOffset < total
      invariant joined == if probeOffset < total then probeOffset else total
      invariant BothSoFar(probe, left, right, projections, outputs, l, r, page, joined, leftOffset, rightOffset)
      decreases total - probeOffset
    {
      var blockSize := if chunkSize < total - probeOffset then chunkSize else total - probeOffset;
      var leftResults, rightResults :=
        JoinBoth(probe, left, right, leftTable, rightTable, hashing, projections, populate,
                                                probeOffset, blockSize, outputs, leftOffset, rightOffset, l, r, page);
      leftOffset, rightOffset := leftOffset + leftResults, rightOffset + rightResults;
      probeOffset := probeOffset + chunkSize;
      joined := joined + blockSize;
    }
    BothOffsets(probe, left, right, projections, outputs, l, r, page, leftOffset, rightOffset);
  }

  lemma NeitherWritten(probe: JoinSide, left: JoinSide, right: JoinSide, projections: seq<nat>,
                       outputs: seq<array<Value>>,
                       l: nat, r: nat, page: seq<seq<Value>>)
    requires probe.Valid() && left.Valid() && right.Valid() && Holds(outputs, page) && l <= r
    requires l + |AllPairs(probe, left)| <= r && Fits(page, projections, r + |AllPairs(probe, right)|)
    ensures BothSoFar(probe, left, right, projections, outputs, l, r, page, 0, l, r)
  {
    hide JoinSide.KeyRows, JoinSide.Valid, Rows;
    var end := r + |AllPairs(probe, right)|;
    FitsLess(page, projections, l, end);
    FitsLess(page, projections, r, end);
    NothingWritten(probe, left, projections, outputs, l, page);
    var once := Written(page, projections, probe.columns, left.columns, l, PairsUpTo(probe, left, 0));
    FitsSame(page, once, projections, r);
    NothingWritten(probe, right, projections, outputs, r, once);
  }

  lemma BothOffsets(probe: JoinSide, left: JoinSide, right: JoinSide, projections: seq<nat>, outputs: seq<array<Value>>,
                    l: nat, r: nat, page: seq<seq<Value>>, leftOffset: nat, rightOffset: nat)
    requires BothSoFar(probe, left, right, projections, outputs, l, r, page, Rows(probe.columns), leftOffset,
                       rightOffset)
    ensures probe.Valid() && left.Valid() && right.Valid()
    ensures leftOffset == l + |AllPairs(probe, left)| && rightOffset == r + |AllPairs(probe, right)|
  {
  }
}
