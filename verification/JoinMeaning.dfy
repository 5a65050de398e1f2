/** What the partition-major stream of joined chunks adds up to: every pair of
    rows with equal keys, exactly once. */
module JoinMeaning {
  import opened RadixPartition
  import opened PartitionAssigner
  import opened HashTable
  import opened Tallies
  import opened HashJoin

  /** Facts and bindings of one join group: their key columns, hashed alike. */
  datatype KeyJoin = KeyJoin(facts: seq<Value>, bindings: seq<Value>, hash: Hash, numRadixBits: nat) {

    function FactJob(): (j: Job) {
      Job(facts, hash, numRadixBits)
    }

    function BindingJob(): (j: Job) {
      Job(bindings, hash, numRadixBits)
    }

    /** The specification: all pairs of rows with equal keys. */
    ghost function EqualPairs(): (ps: set<Pair>) {
      set f, b | 0 <= f < |facts| && 0 <= b < |bindings| && facts[f] == bindings[b] :: Pair(f, b)
    }

    ghost function BindingPart(p: nat): (part: seq<PartitionTuple>) {
      BindingJob().Bucket(p, |bindings|)
    }

    ghost function FactPart(p: nat): (part: seq<PartitionTuple>) {
      FactJob().Bucket(p, |facts|)
    }

    /** The partitions from p on, joined one after the other. */
    ghost function JoinedFrom(p: nat): (ps: seq<Pair>)
      requires p <= FactJob().Count()
      decreases FactJob().Count() - p
    {
      if p == FactJob().Count() then [] else Joined(BindingPart(p), FactPart(p)) + JoinedFrom(p + 1)
    }
  }

  ghost predicate Distinct<T>(s: seq<T>) {
    forall i, j | 0 <= i < j < |s| :: s[i] != s[j]
  }

  lemma DistinctConcat<T>(a: seq<T>, b: seq<T>)
    requires Distinct(a) && Distinct(b) && forall x | x in a :: x !in b
    ensures Distinct(a + b)
  {
    forall i, j | 0 <= i < j < |a + b|
      ensures (a + b)[i] != (a + b)[j]
    {
      if i < |a| <= j {
        assert a[i] in a && b[j - |a|] in b;
      }
    }
  }

  // ---------------------------------------------------------------------
  // One fact tuple, one partition, all partitions
  // ---------------------------------------------------------------------

  lemma {:induction false} MatchesAreExact<K>(keys: seq<K>, key: K, n: nat)
    requires n <= |keys|
    ensures forall r :: r in Matches(keys, key, n) <==> 0 <= r < n && keys[r] == key
    ensures Distinct(Matches(keys, key, n))
  {
    if n > 0 {
      MatchesAreExact(keys, key, n - 1);
      var m, init := Matches(keys, key, n), Matches(keys, key, n - 1);
      forall r
        ensures r in m <==> 0 <= r < n && keys[r] == key
      {
        assert r in init <==> 0 <= r < n - 1 && keys[r] == key;
      }
      if keys[n - 1] == key {
        DistinctConcat([n - 1], init);
      }
    }
  }

  lemma PairsOfAreExact(part: seq<PartitionTuple>, t: PartitionTuple)
    requires forall i, j | 0 <= i < j < |part| :: part[i].tupleId < part[j].tupleId
    ensures forall q :: q in PairsOf(part, t) <==>
              q.fact == t.tupleId && PartitionTuple(t.value, q.binding) in part
    ensures Distinct(PairsOf(part, t))
  {
    var m := Matches(Values(part), t.value, |part|);
    var ps := PairsOf(part, t);
    MatchesAreExact(Values(part), t.value, |part|);
    forall q
      ensures q in ps <==> q.fact == t.tupleId && PartitionTuple(t.value, q.binding) in part
    {
      if q in ps {
        var k :| 0 <= k < |m| && ps[k] == q;
        assert m[k] in m && part[m[k]] == PartitionTuple(t.value, q.binding);
      }
      if q.fact == t.tupleId && PartitionTuple(t.value, q.binding) in part {
        var r :| 0 <= r < |part| && part[r] == PartitionTuple(t.value, q.binding);
        assert r in m;
        var k :| 0 <= k < |m| && m[k] == r;
        assert ps[k] == q;
      }
    }
    forall i, j | 0 <= i < j < |ps|
      ensures ps[i] != ps[j]
    {
      assert m[i] != m[j];
    }
  }

  lemma {:induction false} JoinedIsExact(part: seq<PartitionTuple>, tuples: seq<PartitionTuple>)
    requires forall i, j | 0 <= i < j < |part| :: part[i].tupleId < part[j].tupleId
    requires forall i, j | 0 <= i < j < |tuples| :: tuples[i].tupleId < tuples[j].tupleId
    ensures forall q :: q in Joined(part, tuples) <==>
              exists t :: t in tuples && q.fact == t.tupleId && PartitionTuple(t.value, q.binding) in part
    ensures Distinct(Joined(part, tuples))
  {
    if tuples != [] {
      var init, last := tuples[..|tuples| - 1], tuples[|tuples| - 1];
      JoinedIsExact(part, init);
      PairsOfAreExact(part, last);
      assert tuples == init + [last];
      forall q
        ensures q in Joined(part, tuples) <==>
                exists t :: t in tuples && q.fact == t.tupleId && PartitionTuple(t.value, q.binding) in part
      {
        if q in Joined(part, init) {
          var t :| t in init && q.fact == t.tupleId && PartitionTuple(t.value, q.binding) in part;
          assert t in tuples;
        }
        assert last in tuples;
      }
      forall q | q in Joined(part, init)
        ensures q !in PairsOf(part, last)
      {
        var t :| t in init && q.fact == t.tupleId && PartitionTuple(t.value, q.binding) in part;
        var i :| 0 <= i < |init| && init[i] == t;
        assert tuples[i].tupleId < tuples[|tuples| - 1].tupleId;
      }
      DistinctConcat(Joined(part, init), PairsOf(part, last));
    }
  }

  /** Restricting the join to equal partition ids loses nothing: partition p
      yields the equal pairs whose key hashes to p. */
  lemma PartitionJoinIsExact(k: KeyJoin, p: nat)
    ensures forall q :: q in Joined(k.BindingPart(p), k.FactPart(p)) <==>
              q in k.EqualPairs() && k.FactJob().PartOf(k.facts[q.fact]) == p
    ensures Distinct(Joined(k.BindingPart(p), k.FactPart(p)))
  {
    k.FactJob().BucketIsExact(p, |k.facts|);
    k.BindingJob().BucketIsExact(p, |k.bindings|);
    var part, tuples := k.BindingPart(p), k.FactPart(p);
    JoinedIsExact(part, tuples);
    forall q
      ensures q in Joined(part, tuples) <==> q in k.EqualPairs() && k.FactJob().PartOf(k.facts[q.fact]) == p
    {
      if q in k.EqualPairs() && k.FactJob().PartOf(k.facts[q.fact]) == p {
        var t := PartitionTuple(k.facts[q.fact], q.fact);
        assert t in tuples && PartitionTuple(t.value, q.binding) in part;
      }
    }
  }

  lemma {:induction false} JoinedFromIsExact(k: KeyJoin, p: nat)
    requires p <= k.FactJob().Count()
    ensures forall q :: q in k.JoinedFrom(p) <==> q in k.EqualPairs() && k.FactJob().PartOf(k.facts[q.fact]) >= p
    ensures Distinct(k.JoinedFrom(p))
    decreases k.FactJob().Count() - p
  {
    if p < k.FactJob().Count() {
      PartitionJoinIsExact(k, p);
      JoinedFromIsExact(k, p + 1);
      var here, rest := Joined(k.BindingPart(p), k.FactPart(p)), k.JoinedFrom(p + 1);
      forall q
        ensures q in k.JoinedFrom(p) <==> q in k.EqualPairs() && k.FactJob().PartOf(k.facts[q.fact]) >= p
      {
        assert q in here + rest <==> q in here || q in rest;
      }
      DistinctConcat(here, rest);
    }
  }

  // ---------------------------------------------------------------------
  // Counting over duplicate-free sequences
  // ---------------------------------------------------------------------

  lemma {:induction false} CountIsCard(pairs: seq<Pair>, sel: Selection)
    requires Distinct(pairs)
    ensures Count(pairs, sel) == |set q | q in pairs && sel(q)|
  {
    if pairs != [] {
      var init, last := pairs[..|pairs| - 1], pairs[|pairs| - 1];
      CountIsCard(init, sel);
      assert pairs == init + [last];
      assert last !in init;
      hide Count, Distinct;
      OneMoreSelected(init, last, sel);
    }
  }

  lemma OneMoreSelected(init: seq<Pair>, last: Pair, sel: Selection)
    requires last !in init
    ensures var pairs := init + [last];
            |set q | q in pairs && sel(q)| == |set q | q in init && sel(q)| + if sel(last) then 1 else 0
  {
    var pairs := init + [last];
    var before, after := set q | q in init && sel(q), set q | q in pairs && sel(q);
    assert after == if sel(last) then before + {last} else before;
  }

  lemma CoverIsImage(pairs: seq<Pair>, sel: Selection)
    ensures Cover(pairs, sel) == set q | q in pairs && sel(q) :: q.binding
  {
    forall b | b in (set q | q in pairs && sel(q) :: q.binding)
      ensures b in Cover(pairs, sel)
    {
      var q :| q in pairs && sel(q) && q.binding == b;
      var i :| 0 <= i < |pairs| && pairs[i] == q;
      assert sel(pairs[i]);
    }
  }

  /** Counts over the whole stream are the counts of the naive specification. */
  lemma TallyMeansCardinality(k: KeyJoin, t: Tally, sel: Selection, ids: seq<nat>)
    requires TallyOk(t, k.JoinedFrom(0), sel, ids)
    ensures t.bindings == |set q | q in k.EqualPairs() && sel(q)|
    ensures t.covered == |set q | q in k.EqualPairs() && sel(q) :: q.binding|
  {
    JoinedFromIsExact(k, 0);
    var stream := k.JoinedFrom(0);
    assert forall q :: q in stream <==> q in k.EqualPairs();
    CountIsCard(stream, sel);
    CoverIsImage(stream, sel);
    assert (set q | q in stream && sel(q)) == (set q | q in k.EqualPairs() && sel(q));
    assert (set q | q in stream && sel(q) :: q.binding) == (set q | q in k.EqualPairs() && sel(q) :: q.binding);
  }
}
