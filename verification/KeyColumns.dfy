/** Hashing and comparing rows by several key columns (utility/Hash.hpp). */
module KeyColumns {
  import opened RadixPartition
  import opened Bindings

  type Key = seq<Value>

  /** Hash of a value, and HashCombine of a seed with a value. */
  datatype Hashing = Hashing(hash: Value -> nat, combine: (nat, Value) -> nat) {

    /** The hash of the first n values of a key. */
    function Prefix(key: Key, n: nat): (h: nat)
      requires n <= |key|
    {
      if n == 0 then 0
      else if n == 1 then hash(key[0])
      else combine(Prefix(key, n - 1), key[n - 1])
    }

    function OfKey(): (f: Key -> nat) {
      (key: Key) => Prefix(key, |key|)
    }

    /** The hash of a key goes over its values from left to right. */
    lemma HashGoesLeftToRight(key: Key, x: Value)
      ensures OfKey()([x]) == hash(x)
      ensures key != [] ==> OfKey()(key + [x]) == combine(OfKey()(key), x)
    {
      if key != [] {
        PrefixIgnoresRest(key, key + [x], |key|);
      }
    }

    lemma {:induction false} PrefixIgnoresRest(key: Key, longer: Key, n: nat)
      requires n <= |key| && key <= longer
      ensures Prefix(longer, n) == Prefix(key, n)
    {
      if n > 1 {
        PrefixIgnoresRest(key, longer, n - 1);
      }
    }

    /** Hash<numKeys>: from six keys on the loop runs over all columns. */
    method HashAt(numKeys: nat, columns: seq<seq<Value>>, tid: nat) returns (h: nat)
      requires HasRow(columns, tid) && columns != [] && numKeys == Dispatched(|columns|)
      ensures h == OfKey()(KeyAt(columns, tid))
    {
      ghost var key := KeyAt(columns, tid);
      var n := if numKeys < 6 then numKeys else |columns|;
      h := hash(columns[0][tid]);
      for i := 1 to n
        invariant h == Prefix(key, i)
      {
        h := combine(h, columns[i][tid]);
      }
    }
  }

  /** The template argument that a number of key columns is dispatched to. */
  function Dispatched(numColumns: nat): (n: nat) {
    if 1 <= numColumns <= 5 then numColumns else 6
  }

  ghost predicate HasRow(columns: seq<seq<Value>>, tid: nat) {
    forall i | 0 <= i < |columns| :: tid < |columns[i]|
  }

  ghost function KeyAt(columns: seq<seq<Value>>, tid: nat): (key: Key)
    requires HasRow(columns, tid)
    ensures |key| == |columns| && forall i | 0 <= i < |columns| :: key[i] == columns[i][tid]
  {
    seq(|columns|, i requires 0 <= i < |columns| => columns[i][tid])
  }

  /** VectorEqualAt<numKeys>: whether the rows agree on every key column. */
  method VectorEqualAt(numKeys: nat, left: seq<seq<Value>>, right: seq<seq<Value>>, leftTid: nat, rightTid: nat)
    returns (equal: bool)
    requires HasRow(left, leftTid) && HasRow(right, rightTid) && |left| == |right| > 0 && numKeys == Dispatched(|left|)
    ensures equal <==> KeyAt(left, leftTid) == KeyAt(right, rightTid)
  {
    var n := if numKeys < 6 then numKeys else |left|;
    for i := 0 to n
      invariant forall j | 0 <= j < i :: left[j][leftTid] == right[j][rightTid]
    {
      if left[i][leftTid] != right[i][rightTid] {
        assert KeyAt(left, leftTid)[i] != KeyAt(right, rightTid)[i];
        return false;
      }
    }
    equal := true;
  }

  /** A table and the columns that rows are compared by. */
  datatype JoinSide = JoinSide(columns: seq<seq<Value>>, keys: seq<nat>) {

    ghost predicate Valid() {
      && columns != [] && keys != [] && Rectangular(columns)
      && forall i | 0 <= i < |keys| :: keys[i] < |columns|
    }

    /** The key columns. */
    function KeyValues(): (vs: seq<seq<Value>>)
      requires forall i | 0 <= i < |keys| :: keys[i] < |columns|
      ensures |vs| == |keys| && forall i | 0 <= i < |keys| :: vs[i] == columns[keys[i]]
    {
      seq(|keys|, i requires 0 <= i < |keys| => columns[keys[i]])
    }

    lemma ColumnsHaveRows()
      requires Valid()
      ensures forall i | 0 <= i < |columns| :: |columns[i]| == Rows(columns)
      ensures forall i | 0 <= i < |keys| :: |KeyValues()[i]| == Rows(columns)
    {
      assert forall i | 0 <= i < |columns| :: columns[i] in columns;
    }

    /** The key of every row. */
    ghost function KeyRows(): (ks: seq<Key>)
      requires Valid()
      ensures |ks| == Rows(columns)
    {
      ColumnsHaveRows();
      seq(Rows(columns), tid requires 0 <= tid < Rows(columns) => KeyAt(KeyValues(), tid))
    }

    lemma KeyOfRow(tid: nat)
      requires Valid() && tid < Rows(columns)
      ensures HasRow(KeyValues(), tid) && KeyRows()[tid] == KeyAt(KeyValues(), tid)
    {
      ColumnsHaveRows();
    }
  }
}
