/** Chained hash tables (storage/FoilHashTable.cpp, operations/BuildHashTable.cpp). */
module HashTable {
  import opened Bits

  /** Bucket heads and links are 1-based row positions; 0 ends a chain. */
  datatype FoilHashTable = FoilHashTable(numBuckets: nat, radixBits: nat, buckets: seq<int>, next: seq<int>) {

    /** (hash & mask) >> radixBits, where mask is (numBuckets - 1) << radixBits. */
    function BucketId(hash: nat): (b: nat)
      requires numBuckets > 0
      ensures b < numBuckets
    {
      HashBitModulo(hash, numBuckets, radixBits)
    }

    /** Following the links from the head of bucket b meets the row. */
    predicate ChainHolds(b: nat, row: nat) {
      b < |buckets| && row in Chain(next, buckets[b])
    }
  }

  function HashBitModulo(hash: nat, numBuckets: nat, radixBits: nat): (b: nat)
    requires numBuckets > 0
    ensures b < numBuckets
  {
    hash / Pow2(radixBits) % numBuckets
  }

  // ---------------------------------------------------------------------
  // Chains
  // ---------------------------------------------------------------------

  /** The positions met when a chain is followed from a 1-based head. */
  function Chain(next: seq<int>, head: int): (c: seq<nat>)
    decreases head
  {
    if head <= 0 || head > |next| then []
    else if next[head - 1] >= head then [head - 1]
    else [head - 1] + Chain(next, next[head - 1])
  }

  /** The rows below n that were put into bucket b, latest first; a row with
      slot -1 was not put anywhere. */
  function Descending(slots: seq<int>, b: int, n: nat): (c: seq<nat>)
    requires n <= |slots|
  {
    if n == 0 then []
    else if slots[n - 1] == b then [n - 1] + Descending(slots, b, n - 1)
    else Descending(slots, b, n - 1)
  }

  /** Every bucket's chain lists its rows, latest first. */
  ghost predicate Linked(buckets: seq<int>, next: seq<int>, slots: seq<int>, n: nat) {
    && n <= |slots| == |next|
    && forall b | 0 <= b < |buckets| ::
         && 0 <= buckets[b] <= n
         && DescendingLinks(next, buckets[b])
         && Chain(next, buckets[b]) == Descending(slots, b, n)
  }

  /** Links only lead to smaller positions. */
  ghost predicate DescendingLinks(next: seq<int>, head: int)
    decreases head
  {
    head <= 0 || (head <= |next| && 0 <= next[head - 1] < head && DescendingLinks(next, next[head - 1]))
  }

  lemma {:induction false} ChainIgnoresLater(next: seq<int>, next': seq<int>, head: int)
    requires |next| == |next'| && DescendingLinks(next, head)
    requires forall i | 0 <= i < head && i < |next| :: next'[i] == next[i]
    ensures Chain(next', head) == Chain(next, head) && DescendingLinks(next', head)
    decreases head
  {
    if head > 0 {
      ChainIgnoresLater(next, next', next[head - 1]);
    }
  }

  /** Chains are strictly decreasing, hold exactly the rows of their bucket, and
      hence are disjoint and cover each row once. */
  lemma {:induction false} DescendingIsExact(slots: seq<int>, b: int, n: nat)
    requires n <= |slots|
    ensures var c := Descending(slots, b, n);
            && (forall i, j | 0 <= i < j < |c| :: c[i] > c[j])
            && (forall r :: r in c <==> 0 <= r < n && slots[r] == b)
  {
    if n > 0 {
      DescendingIsExact(slots, b, n - 1);
      var c, rest := Descending(slots, b, n), Descending(slots, b, n - 1);
      forall r
        ensures r in c <==> 0 <= r < n && slots[r] == b
      {
        assert r in rest <==> 0 <= r < n - 1 && slots[r] == b;
      }
      forall i, j | 0 <= i < j < |c|
        ensures c[i] > c[j]
      {
        if slots[n - 1] == b {
          assert c[j] == rest[j - 1] && rest[j - 1] in rest;
        }
      }
    }
  }

  lemma ChainsPartitionRows(buckets: seq<int>, next: seq<int>, slots: seq<int>, n: nat, row: nat)
    requires Linked(buckets, next, slots, n) && row < n && 0 <= slots[row] < |buckets|
    ensures forall b | 0 <= b < |buckets| :: row in Chain(next, buckets[b]) <==> b == slots[row]
    ensures forall b, i, j | 0 <= b < |buckets| && 0 <= i < j < |Chain(next, buckets[b])| ::
              Chain(next, buckets[b])[i] > Chain(next, buckets[b])[j]
  {
    forall b | 0 <= b < |buckets|
      ensures row in Chain(next, buckets[b]) <==> b == slots[row]
      ensures forall i, j | 0 <= i < j < |Chain(next, buckets[b])| ::
                Chain(next, buckets[b])[i] > Chain(next, buckets[b])[j]
    {
      DescendingIsExact(slots, b, n);
    }
  }

  /** Putting row n in front of chain b. */
  lemma LinkRow(buckets: seq<int>, next: seq<int>, slots: seq<int>, n: nat, b: nat, slots': seq<int>)
    requires Linked(buckets, next, slots, n) && n < |next| && b < |buckets|
    requires |slots'| == |slots| && slots'[..n] == slots[..n] && slots'[n] == b
    ensures Linked(buckets[b := n + 1], next[n := buckets[b]], slots', n + 1)
  {
    var next' := next[n := buckets[b]];
    var buckets' := buckets[b := n + 1];
    forall k | 0 <= k < |buckets|
      ensures DescendingLinks(next', buckets'[k]) && Chain(next', buckets'[k]) == Descending(slots', k, n + 1)
    {
      ChainIgnoresLater(next, next', buckets[k]);
      DescendingDependsOnPrefix(slots, slots', k, n);
    }
  }

  lemma NothingLinked(buckets: seq<int>, next: seq<int>, slots: seq<int>)
    requires |next| == |slots| && forall b | 0 <= b < |buckets| :: buckets[b] == 0
    ensures Linked(buckets, next, slots, 0)
  {
  }

  lemma SkipRow(buckets: seq<int>, next: seq<int>, slots: seq<int>, n: nat, slots': seq<int>)
    requires Linked(buckets, next, slots, n) && n < |next|
    requires |slots'| == |slots| && slots'[..n] == slots[..n] && slots'[n] == -1
    ensures Linked(buckets, next, slots', n + 1)
  {
    forall k | 0 <= k < |buckets|
      ensures Descending(slots', k, n + 1) == Descending(slots, k, n)
    {
      DescendingDependsOnPrefix(slots, slots', k, n);
    }
  }

  lemma {:induction false} DescendingDependsOnPrefix(slots: seq<int>, slots': seq<int>, b: int, n: nat)
    requires n <= |slots| == |slots'| && slots'[..n] == slots[..n]
    ensures Descending(slots', b, n) == Descending(slots, b, n)
  {
    if n > 0 {
      assert slots[n - 1] == slots[..n][n - 1] == slots'[..n][n - 1];
      assert slots'[..n - 1] == slots'[..n][..n - 1] == slots[..n - 1];
      DescendingDependsOnPrefix(slots, slots', b, n - 1);
    }
  }

  // ---------------------------------------------------------------------
  // Building and probing
  // ---------------------------------------------------------------------

  /** The bucket of every row. */
  function Slots<K>(keys: seq<K>, hash: K -> nat, numBuckets: nat, radixBits: nat): (s: seq<int>)
    requires numBuckets > 0
  {
    seq(|keys|, i requires 0 <= i < |keys| => HashBitModulo(hash(keys[i]), numBuckets, radixBits))
  }

  ghost predicate Indexes<K(!new)>(t: FoilHashTable, keys: seq<K>, hash: K -> nat) {
    && 0 < t.numBuckets == |t.buckets|
    && Linked(t.buckets, t.next, Slots(keys, hash, t.numBuckets, t.radixBits), |keys|)
  }

  /** The rows below n that carry the key, latest first. */
  function Matches<K(==)>(keys: seq<K>, key: K, n: nat): (c: seq<nat>)
    requires n <= |keys|
    ensures forall i | 0 <= i < |c| :: c[i] < n && keys[c[i]] == key
  {
    if n == 0 then []
    else if keys[n - 1] == key then [n - 1] + Matches(keys, key, n - 1)
    else Matches(keys, key, n - 1)
  }

  function WithKey<K(==)>(c: seq<nat>, keys: seq<K>, key: K): (r: seq<nat>) {
    if c == [] then []
    else if c[0] < |keys| && keys[c[0]] == key then [c[0]] + WithKey(c[1..], keys, key)
    else WithKey(c[1..], keys, key)
  }

  /** Looking only at the key's own bucket loses no match. */
  lemma {:induction false} BucketHasAllMatches<K>(keys: seq<K>, key: K, slots: seq<int>, b: int, n: nat)
    requires n <= |keys| == |slots|
    requires forall i | 0 <= i < n && keys[i] == key :: slots[i] == b
    ensures WithKey(Descending(slots, b, n), keys, key) == Matches(keys, key, n)
  {
    if n > 0 {
      BucketHasAllMatches(keys, key, slots, b, n - 1);
      if slots[n - 1] == b {
        assert Descending(slots, b, n)[1..] == Descending(slots, b, n - 1);
      }
    }
  }

  /** The row becomes the head of its bucket's chain. */
  method LinkIn(buckets: array<int>, next: array<int>, ghost slots: seq<int>, index: nat, bucketId: nat)
    requires buckets != next && index < next.Length == |slots| && bucketId < buckets.Length && slots[index] == bucketId
    requires Linked(buckets[..], next[..], slots, index)
    modifies buckets, next
    ensures Linked(buckets[..], next[..], slots, index + 1)
  {
    hide Linked;
    LinkRow(buckets[..], next[..], slots, index, bucketId, slots);
    ghost var before, links := buckets[..], next[..];
    next[index] := buckets[bucketId];
    buckets[bucketId] := index + 1;
    assert buckets[..] == before[bucketId := index + 1] && next[..] == links[index := before[bucketId]];
  }

  /** Builds the table over the key of every row. */
  method BuildHashTable<K(!new)>(keys: seq<K>, hash: K -> nat, numRadixBits: nat) returns (t: FoilHashTable)
    requires 0 < |keys| <= Pow2(30)
    ensures Indexes(t, keys, hash) && t.radixBits == numRadixBits
    ensures IsLeastPow2(t.numBuckets, |keys|) && |t.buckets| == t.numBuckets && |t.next| == |keys|
    ensures forall row, b | 0 <= row < |keys| && 0 <= b < |t.buckets| ::
              t.ChainHolds(b, row) <==>
                forall j: nat | HasDigit(t.numBuckets, j) :: Digit(b, j) <==> Digit(hash(keys[row]), numRadixBits + j)
  {
    t := BuildChains(keys, hash, numRadixBits);
    ChainsByDigits(t, keys, hash);
  }

  lemma ChainsByDigits<K(!new)>(t: FoilHashTable, keys: seq<K>, hash: K -> nat)
    requires Indexes(t, keys, hash) && IsLeastPow2(t.numBuckets, |keys|)
    ensures forall row, b | 0 <= row < |keys| && 0 <= b < |t.buckets| ::
              t.ChainHolds(b, row) <==>
                forall j: nat | HasDigit(t.numBuckets, j) :: Digit(b, j) <==> Digit(hash(keys[row]), t.radixBits + j)
  {
    forall row, b | 0 <= row < |keys| && 0 <= b < |t.buckets|
      ensures t.ChainHolds(b, row) <==>
                forall j: nat | HasDigit(t.numBuckets, j) :: Digit(b, j) <==> Digit(hash(keys[row]), t.radixBits + j)
    {
      ChainByDigits(t, keys, hash, row, b);
    }
  }

  /** A row is in the chain of the bucket whose number is made of the digits of its
      hash behind the radix bits. */
  lemma ChainByDigits<K(!new)>(t: FoilHashTable, keys: seq<K>, hash: K -> nat, row: nat, b: nat)
    requires Indexes(t, keys, hash) && IsLeastPow2(t.numBuckets, |keys|) && row < |keys| && b < |t.buckets|
    ensures t.ChainHolds(b, row) <==>
              forall j: nat | HasDigit(t.numBuckets, j) :: Digit(b, j) <==> Digit(hash(keys[row]), t.radixBits + j)
  {
    var slots := Slots(keys, hash, t.numBuckets, t.radixBits);
    assert slots[row] == HashBitModulo(hash(keys[row]), t.numBuckets, t.radixBits);
    ChainsPartitionRows(t.buckets, t.next, slots, |keys|, row);
    var k :| 0 <= k && IsLeastPow2Exp(t.numBuckets, |keys|, k);
    hide Linked, Chain, Digit;
    QuotientByDigits(hash(keys[row]), t.radixBits, k, b);
    forall j: nat
      ensures j < k <==> HasDigit(t.numBuckets, j)
    {
      PowersGrow(j, k);
    }
  }

  method BuildChains<K(!new)>(keys: seq<K>, hash: K -> nat, numRadixBits: nat) returns (t: FoilHashTable)
    requires 0 < |keys| <= Pow2(30)
    ensures Indexes(t, keys, hash) && t.radixBits == numRadixBits
    ensures IsLeastPow2(t.numBuckets, |keys|) && |t.buckets| == t.numBuckets && |t.next| == |keys|
  {
    var numBuckets := NextPow2(|keys|);
    var buckets := new int[numBuckets](_ => 0);
    var next := new int[|keys|];
    ghost var slots := Slots(keys, hash, numBuckets, numRadixBits);
    NothingLinked(buckets[..], next[..], slots);
    hide Linked, IsLeastPow2;
    LinkAll(keys, hash, numRadixBits, buckets, next);
    t := FoilHashTable(numBuckets, numRadixBits, buckets[..], next[..]);
  }

  method LinkAll<K(!new)>(keys: seq<K>, hash: K -> nat, numRadixBits: nat, buckets: array<int>, next: array<int>)
    requires buckets != next && next.Length == |keys| && buckets.Length > 0
    requires Linked(buckets[..], next[..], Slots(keys, hash, buckets.Length, numRadixBits), 0)
    modifies buckets, next
    ensures Linked(buckets[..], next[..], Slots(keys, hash, buckets.Length, numRadixBits), |keys|)
  {
    ghost var slots := Slots(keys, hash, buckets.Length, numRadixBits);
    assert forall i | 0 <= i < |keys| :: slots[i] == HashBitModulo(hash(keys[i]), buckets.Length, numRadixBits);
    assert |slots| == |keys|;
    hide Linked, Slots;
    for index := 0 to |keys|
      invariant Linked(buckets[..], next[..], slots, index)
    {
      var bucketId := HashBitModulo(hash(keys[index]), buckets.Length, numRadixBits);
      LinkIn(buckets, next, slots, index, bucketId);
    }
  }

  /** Follows the chain of the key's bucket and keeps the rows whose key is equal. */
  method Probe<K(==,!new)>(t: FoilHashTable, keys: seq<K>, hash: K -> nat, key: K) returns (positions: seq<nat>)
    requires Indexes(t, keys, hash)
    ensures positions == Matches(keys, key, |keys|)
  {
    var bucketId := t.BucketId(hash(key));
    BucketHasAllMatches(keys, key, Slots(keys, hash, t.numBuckets, t.radixBits), bucketId, |keys|);
    positions := WalkChain(t.next, keys, key, t.buckets[bucketId]);
  }

  method WalkChain<K(==,!new)>(next: seq<int>, keys: seq<K>, key: K, head: int) returns (positions: seq<nat>)
    requires 0 <= head <= |keys| == |next| && DescendingLinks(next, head)
    ensures positions == WithKey(Chain(next, head), keys, key)
  {
    hide *;
    positions := [];
    var position := head - 1;
    NoChain(next, keys, key);
    while position >= 0
      invariant -1 <= position < |keys| && DescendingLinks(next, position + 1)
      invariant positions + WithKey(Chain(next, position + 1), keys, key) == WithKey(Chain(next, head), keys, key)
    {
      FirstOfChain(next, keys, key, position);
      if keys[position] == key {
        positions := positions + [position];
      }
      position := next[position] - 1;
    }
  }

  lemma FirstOfChain<K(!new)>(next: seq<int>, keys: seq<K>, key: K, position: nat)
    requires position < |keys| == |next| && DescendingLinks(next, position + 1)
    ensures 0 <= next[position] <= position && DescendingLinks(next, next[position])
    ensures WithKey(Chain(next, position + 1), keys, key)
         == (if keys[position] == key then [position] else []) + WithKey(Chain(next, next[position]), keys, key)
  {
    assert Chain(next, position + 1)[1..] == Chain(next, next[position]);
  }

  lemma NoChain<K(!new)>(next: seq<int>, keys: seq<K>, key: K)
    ensures WithKey(Chain(next, 0), keys, key) == []
  {
  }
}
