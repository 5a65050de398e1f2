/** Building the deduplicating hash table from a semi-join that delivers its
    output in chunks: row numbers are relative to the chunk, so the table is right
    exactly when there is one chunk (operations/BuildHashTable.cpp,
    BuildHashTableAfterSemiJoinImpl). */
module ChunkedBuild {
  import opened Bits
  import opened HashTable
  import opened KeyColumns
  import opened SemiJoins
  import opened Coverage

  /** The table that a run starts from. */
  function Empty(numBuckets: nat, size: nat): (t: FoilHashTable) {
    FoilHashTable(numBuckets, 0, seq(numBuckets, _ => 0), seq(size, _ => 0))
  }

  ghost predicate Shaped(t: FoilHashTable, size: nat) {
    0 < t.numBuckets == |t.buckets| && |t.next| == size && t.radixBits == 0
  }

  /** The row becomes the head of its bucket's chain. */
  function Link(t: FoilHashTable, b: nat, tid: nat): (r: FoilHashTable)
    requires b < |t.buckets| && tid < |t.next|
  {
    t.(buckets := t.buckets[b := tid + 1], next := t.next[tid := t.buckets[b]])
  }

  /** The chain leads downwards through rows of the chunk only. */
  ghost predicate Regular(next: seq<int>, head: int, size: nat)
    decreases head
  {
    head == 0 || (0 < head <= size && head <= |next| && next[head - 1] < head && Regular(next, next[head - 1], size))
  }

  /** One row of a chunk: its number is relative to the chunk, and so are the rows
      it is compared with. What a lookup finds that leaves the chunk is open. */
  ghost predicate Step(t: FoilHashTable, t': FoilHashTable, keys: seq<Key>, hash: Key -> nat, chunkSize: nat, row: nat)
    requires row < |keys| && Shaped(t, |keys|) && chunkSize > 0
  {
    RowInChunk(row, chunkSize);
    var start, tid := row / chunkSize * chunkSize, row % chunkSize;
    var b := t.BucketId(hash(keys[row]));
    && (t' == t || t' == Link(t, b, tid))
    && (Regular(t.next, t.buckets[b], |keys| - start) ==> t' == InsertStep(t, keys[start..], hash, tid))
  }

  lemma RowInChunk(row: nat, chunkSize: nat)
    requires chunkSize > 0
    ensures row / chunkSize * chunkSize + row % chunkSize == row && row % chunkSize <= row
    ensures row / chunkSize * chunkSize <= row
  {
  }

  /** What becomes of a row: a semi-join that does not select it leaves it out. */
  ghost predicate Offered(t: FoilHashTable, t': FoilHashTable, keys: seq<Key>, selected: seq<bool>, hash: Key -> nat,
                          chunkSize: nat, row: nat)
    requires row < |keys| == |selected| && chunkSize > 0
  {
    && Shaped(t, |keys|) && Shaped(t', |keys|)
    && if selected[row] then Step(t, t', keys, hash, chunkSize, row) else t' == t
  }

  /** The tables of one run, before and after each row. */
  ghost predicate Run(tables: seq<FoilHashTable>, keys: seq<Key>, selected: seq<bool>, hash: Key -> nat,
                      numBuckets: nat, chunkSize: nat)
    requires |keys| == |selected| && numBuckets > 0 && chunkSize > 0
  {
    && |tables| == |keys| + 1 && tables[0] == Empty(numBuckets, |keys|)
    && forall row | 0 <= row < |keys| :: Offered(tables[row], tables[row + 1], keys, selected, hash, chunkSize, row)
  }

  /** Looking up a key in the whole table finds something. */
  ghost predicate Finds(t: FoilHashTable, keys: seq<Key>, hash: Key -> nat, key: Key)
  {
    Shaped(t, |keys|) && ChainHas(t.next, keys, key, t.buckets[t.BucketId(hash(key))])
  }

  /** The table of every run finds exactly the selected keys. */
  ghost predicate BuildIsExact(size: nat, chunkSize: nat)
    requires chunkSize > 0
  {
    forall tables, keys: seq<Key>, selected, hash: Key -> nat, numBuckets: nat |
      |keys| == |selected| == size && numBuckets > 0 && Run(tables, keys, selected, hash, numBuckets, chunkSize) ::
      forall key :: Finds(tables[size], keys, hash, key) <==> HasPartner(key, keys, selected)
  }

  // ---------------------------------------------------------------------
  // One chunk
  // ---------------------------------------------------------------------

  lemma {:induction false} RunIsBuilding(tables: seq<FoilHashTable>, keys: seq<Key>, selected: seq<bool>,
                                         hash: Key -> nat, numBuckets: nat,
                                         chunkSize: nat, n: nat)
    returns (slots: seq<int>)
    requires n <= |keys| == |selected| <= chunkSize && numBuckets > 0 && chunkSize > 0
    requires Run(tables, keys, selected, hash, numBuckets, chunkSize)
    ensures Shaped(tables[n], |keys|) && Building(tables[n].buckets, tables[n].next, keys, hash, slots, selected, n)
  {
    if n == 0 {
      slots := seq(|keys|, _ => -1);
      StartBuilding(tables[0].buckets, tables[0].next, keys, hash, selected);
    } else {
      slots := RunIsBuilding(tables, keys, selected, hash, numBuckets, chunkSize, n - 1);
      assert Offered(tables[n - 1], tables[n - 1 + 1], keys, selected, hash, chunkSize, n - 1);
      hide Run, Step, Building;
      if selected[n - 1] {
        slots := StepKeepsBuilding(tables[n - 1], tables[n], keys, selected, hash, chunkSize, n - 1, slots);
      } else {
        SkipUnselected(tables[n].buckets, tables[n].next, keys, hash, slots, selected, n - 1, n);
      }
    }
  }

  lemma StepKeepsBuilding(t: FoilHashTable, t': FoilHashTable, keys: seq<Key>, selected: seq<bool>, hash: Key -> nat,
                          chunkSize: nat, row: nat,
                          slots: seq<int>)
    returns (slots': seq<int>)
    requires row < |keys| <= chunkSize && Shaped(t, |keys|) && Step(t, t', keys, hash, chunkSize, row)
    requires Building(t.buckets, t.next, keys, hash, slots, selected, row) && selected[row]
    ensures Building(t'.buckets, t'.next, keys, hash, slots', selected, row + 1)
  {
    var b := t.BucketId(hash(keys[row]));
    FirstChunk(row, chunkSize);
    assert keys[0..] == keys;
    ChainTells(t.buckets, t.next, keys, hash, slots, selected, row, keys[row]);
    BuildingSizes(t.buckets, t.next, keys, hash, slots, selected, row);
    RegularIfDescending(t.next, t.buckets[b], |keys|);
    hide Linked, Inserted, ChainHas, DescendingLinks, Regular;
    var exist := Inserted(keys, slots, keys[row]);
    OfferRow(t.buckets, t.next, keys, hash, slots, selected, row, exist);
    slots' := if exist then slots else slots[row := b];
  }

  lemma FirstChunk(row: nat, chunkSize: nat)
    requires row < chunkSize
    ensures row / chunkSize * chunkSize == 0 && row % chunkSize == row
  {
  }

  lemma {:induction false} RegularIfDescending(next: seq<int>, head: int, size: nat)
    requires 0 <= head <= size == |next| && DescendingLinks(next, head)
    ensures Regular(next, head, size)
    decreases head
  {
    if head > 0 {
      RegularIfDescending(next, next[head - 1], size);
    }
  }

  lemma OneChunkIsExact(tables: seq<FoilHashTable>, keys: seq<Key>, selected: seq<bool>, hash: Key -> nat,
                        numBuckets: nat, chunkSize: nat,
                        key: Key)
    requires |keys| == |selected| <= chunkSize && numBuckets > 0 && chunkSize > 0
    requires Run(tables, keys, selected, hash, numBuckets, chunkSize)
    ensures Finds(tables[|keys|], keys, hash, key) <==> HasPartner(key, keys, selected)
  {
    var slots := RunIsBuilding(tables, keys, selected, hash, numBuckets, chunkSize, |keys|);
    hide Run, Linked, Inserted, ChainHas, HasPartner;
    assert Holding(tables[|keys|], keys, hash, slots, selected);
    BucketTells(tables[|keys|], keys, hash, slots, selected, key);
  }

  // ---------------------------------------------------------------------
  // More chunks
  // ---------------------------------------------------------------------

  /** Different keys, of which only the first one of the second chunk is selected. */
  ghost function DifferentKeys(size: nat): (keys: seq<Key>)
    ensures |keys| == size
  {
    seq(size, i => [i])
  }

  ghost function OnlyRow(size: nat, row: nat): (selected: seq<bool>)
    ensures |selected| == size
  {
    seq(size, i => i == row)
  }

  /** The first row of the second chunk enters the empty table as row 0. */
  lemma EntersAsRowZero(size: nat, chunkSize: nat, hash: Key -> nat, numBuckets: nat) returns (t: FoilHashTable)
    requires 0 < chunkSize < size && numBuckets > 0
    ensures Shaped(t, size) && Step(Empty(numBuckets, size), t, DifferentKeys(size), hash, chunkSize, chunkSize)
    ensures t == Link(Empty(numBuckets, size), Empty(numBuckets, size).BucketId(hash([chunkSize])), 0)
  {
    var keys, key: Key := DifferentKeys(size), [chunkSize];
    var empty := Empty(numBuckets, size);
    assert keys[chunkSize] == key;
    t := Link(empty, empty.BucketId(hash(key)), 0);
    SecondChunkStarts(chunkSize);
    assert !ChainHas(empty.next, keys[chunkSize..], key, 0);
  }

  lemma SecondChunkStarts(chunkSize: nat)
    requires chunkSize > 0
    ensures chunkSize / chunkSize * chunkSize == chunkSize && chunkSize % chunkSize == 0
  {
  }

  /** The run on these keys and this selection whose only step makes t. */
  ghost function OneStep(size: nat, chunkSize: nat, numBuckets: nat, t: FoilHashTable): (tables: seq<FoilHashTable>)
    ensures |tables| == size + 1
  {
    seq(size + 1, n => if n <= chunkSize then Empty(numBuckets, size) else t)
  }

  lemma OneStepIsRun(size: nat, chunkSize: nat, hash: Key -> nat, numBuckets: nat, t: FoilHashTable)
    requires 0 < chunkSize < size && numBuckets > 0
    requires Shaped(t, size) && Step(Empty(numBuckets, size), t, DifferentKeys(size), hash, chunkSize, chunkSize)
    ensures Run(OneStep(size, chunkSize, numBuckets, t), DifferentKeys(size), OnlyRow(size, chunkSize), hash,
                numBuckets, chunkSize)
  {
    hide Step;
    assert Shaped(Empty(numBuckets, size), size);
  }

  /** A lookup of the key that entered as row 0 meets the key of row 0 instead. */
  lemma SecondChunkIsLost(size: nat, chunkSize: nat, hash: Key -> nat, numBuckets: nat)
    returns (tables: seq<FoilHashTable>)
    requires 0 < chunkSize < size && numBuckets > 0
    ensures Run(tables, DifferentKeys(size), OnlyRow(size, chunkSize), hash, numBuckets, chunkSize)
    ensures !Finds(tables[size], DifferentKeys(size), hash, [chunkSize])
    ensures HasPartner([chunkSize], DifferentKeys(size), OnlyRow(size, chunkSize))
  {
    var t := EntersAsRowZero(size, chunkSize, hash, numBuckets);
    OneStepIsRun(size, chunkSize, hash, numBuckets, t);
    tables := OneStep(size, chunkSize, numBuckets, t);
    hide Run, Step;
    var keys, key: Key, first: Key := DifferentKeys(size), [chunkSize], [0];
    assert keys[chunkSize] == key && OnlyRow(size, chunkSize)[chunkSize];
    assert keys[0] == first && first[0] != key[0];
    assert tables[size] == t && t.next[0] == 0 && t.buckets[t.BucketId(hash(key))] == 1;
    assert !ChainHas(t.next, keys, key, 0) && !ChainHas(t.next, keys, key, 1);
  }

  /** The table finds exactly the selected keys, whatever they are, if and only if
      the rows fit in one chunk. */
  lemma BuildIsExactIff(size: nat, chunkSize: nat)
    requires chunkSize > 0
    ensures BuildIsExact(size, chunkSize) <==> size <= chunkSize
  {
    if size <= chunkSize {
      OneChunkSuffices(size, chunkSize);
    } else {
      var hash: Key -> nat := _ => 0;
      var tables := SecondChunkIsLost(size, chunkSize, hash, 1);
      RunRefutes(tables, DifferentKeys(size), OnlyRow(size, chunkSize), hash, 1, chunkSize, [chunkSize]);
    }
  }

  lemma OneChunkSuffices(size: nat, chunkSize: nat)
    requires chunkSize > 0 && size <= chunkSize
    ensures BuildIsExact(size, chunkSize)
  {
    hide Finds, HasPartner;
    forall tables, keys: seq<Key>, selected, hash: Key -> nat, numBuckets: nat |
      |keys| == |selected| == size && numBuckets > 0 && Run(tables, keys, selected, hash, numBuckets, chunkSize)
      ensures forall key :: Finds(tables[size], keys, hash, key) <==> HasPartner(key, keys, selected)
    {
      forall key ensures Finds(tables[size], keys, hash, key) <==> HasPartner(key, keys, selected) {
        OneChunkIsExact(tables, keys, selected, hash, numBuckets, chunkSize, key);
      }
    }
  }

  lemma RunRefutes(tables: seq<FoilHashTable>, keys: seq<Key>, selected: seq<bool>, hash: Key -> nat, numBuckets: nat,
                   chunkSize: nat,
                   key: Key)
    requires |keys| == |selected| && numBuckets > 0 && chunkSize > 0
    requires Run(tables, keys, selected, hash, numBuckets, chunkSize)
    requires !(Finds(tables[|keys|], keys, hash, key) <==> HasPartner(key, keys, selected))
    ensures !BuildIsExact(|keys|, chunkSize)
  {
    hide Run, Finds, HasPartner;
  }
}
