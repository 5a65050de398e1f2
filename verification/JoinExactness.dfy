/** Exactly when the joins of the replaceable-duplicate test are right: a variable
    that a literal repeats must have been assigned before the literal is joined
    (learner/CandidateLiteralEnumerator.cpp). */
module JoinExactness {
  import opened Collections
  import opened Query
  import opened CanonicalJoin

  // ---------------------------------------------------------------------
  // A database in which a literal matches but does not hold
  // ---------------------------------------------------------------------

  /** Variables of ls keep their place; every other position gets a value of its
      own. */
  ghost function GenericRow(args: seq<int>, n: nat, ls: set<Literal>): (row: Row)
    ensures |row| == |args|
  {
    seq(|args|, i requires 0 <= i < |args| => if args[i] >= 0 && Occurs(args[i], ls) then args[i] else n + i)
  }

  ghost function GenericDb(lit: Literal, n: nat, ls: set<Literal>): (db: Database) {
    FactsOf(ls) + {Fact(lit.pred, GenericRow(lit.args, n, ls))}
  }

  /** The setting of one join: all homomorphisms of the literals joined so far,
      and the relation of the next literal's predicate. */
  ghost predicate JoinSetting(rel: seq<Row>, rows: set<Row>, lit: Literal, n: nat, ls: set<Literal>, db: Database) {
    HomSet(rows, n, ls, db) && RelationOf(rel, lit.pred, db) && NonNegative(db)
  }

  ghost predicate LiteralsWithin(ls: set<Literal>, n: nat) {
    forall l | l in ls :: ArgsWithin(l.args, n)
  }

  ghost function AllRows(n: nat, m: nat): (rows: set<Row>) {
    if n == 0 then {[]} else set r, v | r in AllRows(n - 1, m) && -1 <= v < m :: r + [v]
  }

  lemma {:induction false} AllRowsAreAll(n: nat, m: nat, r: Row)
    requires |r| == n && forall v | 0 <= v < n :: -1 <= r[v] < m
    ensures r in AllRows(n, m)
  {
    if n > 0 {
      AllRowsAreAll(n - 1, m, r[..n - 1]);
      assert r == r[..n - 1] + [r[n - 1]];
    }
  }

  ghost predicate ValuesBelow(db: Database, m: nat) {
    forall f, i | f in db && 0 <= i < |f.row| :: 0 <= f.row[i] < m
  }

  /** Every set of literals has a setting over every bounded database. */
  lemma SettingExists(lit: Literal, n: nat, ls: set<Literal>, db: Database, m: nat)
    returns (rel: seq<Row>, rows: set<Row>)
    requires ValuesBelow(db, m)
    ensures JoinSetting(rel, rows, lit, n, ls, db)
  {
    rel := SeqOf(set f | f in db && f.pred == lit.pred :: f.row);
    forall row
      ensures row in rel <==> Fact(lit.pred, row) in db
    {
      assert Fact(lit.pred, row).pred == lit.pred;
    }
    rows := set r | r in AllRows(n, m) && PartialHom(r, n, ls, db);
    forall r
      ensures r in rows <==> PartialHom(r, n, ls, db)
    {
      if PartialHom(r, n, ls, db) {
        HomValuesBelow(r, n, ls, db, m);
        AllRowsAreAll(n, m, r);
      }
    }
  }

  lemma HomValuesBelow(r: Row, n: nat, ls: set<Literal>, db: Database, m: nat)
    requires PartialHom(r, n, ls, db) && ValuesBelow(db, m)
    ensures forall v | 0 <= v < n :: -1 <= r[v] < m
  {
    forall v | 0 <= v < n && r[v] != -1
      ensures 0 <= r[v] < m
    {
      var l :| l in ls && v in l.args;
      assert Satisfies(r, l, db);
      var i :| 0 <= i < |l.args| && l.args[i] == v;
      assert Image(l.args, r)[i] == r[v];
      assert Fact(l.pred, Image(l.args, r)) in db;
    }
  }

  lemma GenericSetting(lit: Literal, n: nat, ls: set<Literal>) returns (rel: seq<Row>, rows: set<Row>)
    requires LiteralsWithin(ls, n)
    ensures JoinSetting(rel, rows, lit, n, ls, GenericDb(lit, n, ls))
    ensures GenericRow(lit.args, n, ls) in rel && IdentityRow(n, ls) in rows
  {
    var db, row := GenericDb(lit, n, ls), GenericRow(lit.args, n, ls);
    forall v | v >= 0 && Occurs(v, ls)
      ensures v < n
    {
      var l :| l in ls && v in l.args;
    }
    forall f, i | f in db && 0 <= i < |f.row|
      ensures 0 <= f.row[i] < n + |lit.args|
    {
      if f.row != row {
        var l :| l in ls && f == Fact(l.pred, l.args);
      }
    }
    rel, rows := SettingExists(lit, n, ls, db, n + |lit.args|);
    IdentityIsHom(n, ls, db);
    assert Fact(lit.pred, row) in db;
  }

  /** The generic row matches the identity. */
  lemma GenericMatches(checkBound: bool, args: seq<int>, n: nat, ls: set<Literal>)
    requires JoinableArgs(args, n) && (checkBound || ArgsWithin(args, n))
    ensures Compatible(checkBound, args, GenericRow(args, n, ls), IdentityRow(n, ls))
  {
    forall i | 0 <= i < |args|
      ensures AgreesAt(checkBound, args, GenericRow(args, n, ls), IdentityRow(n, ls), i)
    {
    }
  }

  /** A value written by a join comes from some position of its variable. */
  lemma {:induction false} WrittenFrom(args: seq<int>, row: Row, joined: Row, k: nat, v: int) returns (m: nat)
    requires k <= |args| == |row| && ArgsWithin(args, |joined|) && 0 <= v < |joined|
    requires joined[v] == -1 && v in args[..k] && forall i | 0 <= i < |row| :: row[i] != -1
    ensures m < k && args[m] == v && Extend(args, row, joined, k)[v] == row[m]
  {
    assert args[..k] == args[..k - 1] + [args[k - 1]];
    if v in args[..k - 1] {
      m := WrittenFrom(args, row, joined, k - 1, v);
    } else {
      NotWritten(args, row, joined, k - 1, v);
      m := k - 1;
    }
  }

  lemma {:induction false} NotWritten(args: seq<int>, row: Row, joined: Row, k: nat, v: int)
    requires k <= |args| == |row| && ArgsWithin(args, |joined|) && 0 <= v < |joined| && v !in args[..k]
    ensures Extend(args, row, joined, k)[v] == joined[v]
  {
    if k > 0 {
      assert args[..k] == args[..k - 1] + [args[k - 1]];
      NotWritten(args, row, joined, k - 1, v);
    }
  }

  // ---------------------------------------------------------------------
  // Joins that collect all results
  // ---------------------------------------------------------------------

  /** Joining the literal gives the homomorphisms of ls + {lit} whatever the
      database is. */
  ghost predicate JoinIsExact(lit: Literal, n: nat, ls: set<Literal>) {
    forall rel, rows, db | JoinSetting(rel, rows, lit, n, ls, db) ::
      HomSet(JoinSet(lit.args, rel, rows), n, ls + {lit}, db)
  }

  lemma JoinExactIff(lit: Literal, n: nat, ls: set<Literal>)
    requires ArgsWithin(lit.args, n) && LiteralsWithin(ls, n)
    ensures JoinIsExact(lit, n, ls) <==> Anchored(lit.args, ls)
  {
    if Anchored(lit.args, ls) {
      forall rel, rows, db | JoinSetting(rel, rows, lit, n, ls, db)
        ensures HomSet(JoinSet(lit.args, rel, rows), n, ls + {lit}, db)
      {
        JoinStep(rel, rows, lit, n, ls, db);
      }
    } else {
      var rel, rows := GenericSetting(lit, n, ls);
      var row, id := GenericRow(lit.args, n, ls), IdentityRow(n, ls);
      GenericMatches(false, lit.args, n, ls);
      var r := Extend(lit.args, row, id, |lit.args|);
      assert JoinsTo(lit.args, row, id, r);
      assert r in JoinSet(lit.args, rel, rows);
      GenericResultIsNoHom(lit, n, ls);
    }
  }

  lemma GenericResultIsNoHom(lit: Literal, n: nat, ls: set<Literal>)
    requires ArgsWithin(lit.args, n) && LiteralsWithin(ls, n) && !Anchored(lit.args, ls)
    ensures var r := Extend(lit.args, GenericRow(lit.args, n, ls), IdentityRow(n, ls), |lit.args|);
            !PartialHom(r, n, ls + {lit}, GenericDb(lit, n, ls))
  {
    var row, id, args := GenericRow(lit.args, n, ls), IdentityRow(n, ls), lit.args;
    var r := Extend(args, row, id, |args|);
    var i, j :| 0 <= i < j < |args| && args[i] == args[j] >= 0 && !Occurs(args[i], ls);
    assert args[..|args|] == args;
    var m := WrittenFrom(args, row, id, |args|, args[i]);
    var image := Image(args, r);
    assert image[i] == n + m == image[j];
    if Satisfies(r, lit, GenericDb(lit, n, ls)) {
      NoGenericFact(lit, n, ls, image, i, j);
    }
    assert lit in ls + {lit};
  }

  /** No fact of the generic database has one new value at both positions. */
  lemma NoGenericFact(lit: Literal, n: nat, ls: set<Literal>, image: Row, i: nat, j: nat)
    requires LiteralsWithin(ls, n) && i < j < |lit.args| == |image|
    requires lit.args[i] == lit.args[j] >= 0 && !Occurs(lit.args[i], ls) && image[i] == image[j] >= n
    ensures Fact(lit.pred, image) !in GenericDb(lit, n, ls)
  {
    forall l | l in ls && i < |l.args|
      ensures l.args[i] < n
    {
    }
    assert GenericRow(lit.args, n, ls)[i] != GenericRow(lit.args, n, ls)[j];
  }

  // ---------------------------------------------------------------------
  // Joins that ask for any match
  // ---------------------------------------------------------------------

  /** Asking for any match decides the candidate whatever the database is. */
  ghost predicate BoundTestIsExact(lit: Literal, n: nat, ls: set<Literal>) {
    forall rel, rows, db | JoinSetting(rel, rows, lit, n, ls, db) ::
      SomePairMatches(true, lit.args, rel, rows)
      <==> HasHom(n + Unbound(lit.args), ls + {Literal(lit.pred, Freeze(lit.args, n))}, db)
  }

  /** No joined literal of the predicate repeats a value where the candidate
      repeats a variable that is not assigned; such a literal would make the
      candidate true by itself. */
  ghost predicate NoTwin(lit: Literal, ls: set<Literal>) {
    forall l, i, j | l in ls && l.pred == lit.pred && 0 <= i < j < |lit.args| == |l.args|
                     && lit.args[i] == lit.args[j] >= 0 && !Occurs(lit.args[i], ls) ::
      l.args[i] != l.args[j]
  }

  lemma BoundTestExactIff(lit: Literal, n: nat, ls: set<Literal>)
    requires JoinableArgs(lit.args, n) && LiteralsWithin(ls, n)
    ensures Anchored(lit.args, ls) ==> BoundTestIsExact(lit, n, ls)
    ensures NoTwin(lit, ls) ==> (BoundTestIsExact(lit, n, ls) <==> Anchored(lit.args, ls))
  {
    hide *;
    if Anchored(lit.args, ls) {
      AnchoredBoundTest(lit, n, ls);
    } else if NoTwin(lit, ls) {
      UnanchoredBoundTest(lit, n, ls);
    }
  }

  lemma AnchoredBoundTest(lit: Literal, n: nat, ls: set<Literal>)
    requires JoinableArgs(lit.args, n) && LiteralsWithin(ls, n) && Anchored(lit.args, ls)
    ensures BoundTestIsExact(lit, n, ls)
  {
    hide HomSet, HasHom, Anchored, SomePairMatches;
    forall rel, rows, db | JoinSetting(rel, rows, lit, n, ls, db)
      ensures SomePairMatches(true, lit.args, rel, rows)
              <==> HasHom(n + Unbound(lit.args), ls + {Literal(lit.pred, Freeze(lit.args, n))}, db)
    {
      BoundTestDecides(rel, rows, lit, n, ls, db);
    }
  }

  lemma UnanchoredBoundTest(lit: Literal, n: nat, ls: set<Literal>)
    requires JoinableArgs(lit.args, n) && LiteralsWithin(ls, n) && !Anchored(lit.args, ls) && NoTwin(lit, ls)
    ensures !BoundTestIsExact(lit, n, ls)
  {
    hide *;
    var rel, rows := GenericSetting(lit, n, ls);
    GenericMatches(true, lit.args, n, ls);
    PairMatches(true, lit.args, rel, rows, GenericRow(lit.args, n, ls), IdentityRow(n, ls));
    GenericHasNoHom(lit, n, ls);
    NotExactBy(lit, n, ls, rel, rows, GenericDb(lit, n, ls));
  }

  lemma PairMatches(checkBound: bool, args: seq<int>, rel: seq<Row>, rows: set<Row>, row: Row, r: Row)
    requires row in rel && r in rows && Compatible(checkBound, args, row, r)
    ensures SomePairMatches(checkBound, args, rel, rows)
  {
    hide Compatible;
  }

  lemma NotExactBy(lit: Literal, n: nat, ls: set<Literal>, rel: seq<Row>, rows: set<Row>, db: Database)
    requires JoinSetting(rel, rows, lit, n, ls, db) && SomePairMatches(true, lit.args, rel, rows)
    requires !HasHom(n + Unbound(lit.args), ls + {Literal(lit.pred, Freeze(lit.args, n))}, db)
    ensures !BoundTestIsExact(lit, n, ls)
  {
    hide JoinSetting, HasHom, SomePairMatches;
  }

  lemma GenericHasNoHom(lit: Literal, n: nat, ls: set<Literal>)
    requires JoinableArgs(lit.args, n) && LiteralsWithin(ls, n) && !Anchored(lit.args, ls) && NoTwin(lit, ls)
    ensures !HasHom(n + Unbound(lit.args), ls + {Literal(lit.pred, Freeze(lit.args, n))}, GenericDb(lit, n, ls))
  {
    hide *;
    var i, j := RepeatedAt(lit.args, ls);
    var m, all, db := n + Unbound(lit.args), ls + {Literal(lit.pred, Freeze(lit.args, n))}, GenericDb(lit, n, ls);
    forall r
      ensures !PartialHom(r, m, all, db)
    {
      TwinIsNoHom(lit, n, ls, r, i, j);
    }
    NoHomAtAll(m, all, db);
  }

  lemma RepeatedAt(args: seq<int>, ls: set<Literal>) returns (i: nat, j: nat)
    requires !Anchored(args, ls)
    ensures i < j < |args| && args[i] == args[j] >= 0 && !Occurs(args[i], ls)
  {
    i, j :| 0 <= i < j < |args| && args[i] == args[j] >= 0 && !Occurs(args[i], ls);
  }

  lemma NoHomAtAll(n: nat, ls: set<Literal>, db: Database)
    requires forall r :: !PartialHom(r, n, ls, db)
    ensures !HasHom(n, ls, db)
  {
  }

  lemma TwinIsNoHom(lit: Literal, n: nat, ls: set<Literal>, r: Row, i: nat, j: nat)
    requires JoinableArgs(lit.args, n) && NoTwin(lit, ls) && i < j < |lit.args|
    requires lit.args[i] == lit.args[j] >= 0 && !Occurs(lit.args[i], ls)
    ensures !PartialHom(r, n + Unbound(lit.args), ls + {Literal(lit.pred, Freeze(lit.args, n))}, GenericDb(lit, n, ls))
  {
    var numbered := Literal(lit.pred, Freeze(lit.args, n));
    FreezeShape(lit.args, n);
    hide Freeze, Unbound, NoTwin, GenericDb, Occurs;
    assert numbered in ls + {numbered};
    if ArgsWithin(numbered.args, |r|) {
      TwinFact(lit, n, ls, Image(numbered.args, r), i, j);
      assert !Satisfies(r, numbered, GenericDb(lit, n, ls));
    }
  }

  lemma TwinFact(lit: Literal, n: nat, ls: set<Literal>, image: Row, i: nat, j: nat)
    requires NoTwin(lit, ls) && i < j < |lit.args| == |image| && image[i] == image[j]
    requires lit.args[i] == lit.args[j] >= 0 && !Occurs(lit.args[i], ls)
    ensures Fact(lit.pred, image) !in GenericDb(lit, n, ls)
  {
    forall l | l in ls && l.pred == lit.pred && |l.args| == |lit.args|
      ensures l.args[i] != l.args[j]
    {
    }
    assert GenericRow(lit.args, n, ls)[i] != GenericRow(lit.args, n, ls)[j];
  }

  /** The same for a literal of the clause, all of whose variables are bound. */
  ghost predicate AnyTestIsExact(lit: Literal, n: nat, ls: set<Literal>) {
    forall rel, rows, db | JoinSetting(rel, rows, lit, n, ls, db) ::
      SomePairMatches(false, lit.args, rel, rows) <==> HasHom(n, ls + {lit}, db)
  }

  lemma AnyTestExactIff(lit: Literal, n: nat, ls: set<Literal>)
    requires ArgsWithin(lit.args, n) && LiteralsWithin(ls, n)
    ensures Anchored(lit.args, ls) ==> AnyTestIsExact(lit, n, ls)
    ensures NoTwin(lit, ls) ==> (AnyTestIsExact(lit, n, ls) <==> Anchored(lit.args, ls))
  {
    BoundTestExactIff(lit, n, ls);
    NothingToNumber(lit.args, n);
    hide HasHom, Anchored, NoTwin, JoinSetting, Freeze, Unbound;
    assert n + Unbound(lit.args) == n && Literal(lit.pred, Freeze(lit.args, n)) == lit;
    forall rel: seq<Row>, rows: set<Row>
      ensures SomePairMatches(false, lit.args, rel, rows) <==> SomePairMatches(true, lit.args, rel, rows)
    {
      SameMatches(lit.args, n, rel, rows);
    }
    hide SomePairMatches;
  }

  lemma {:induction false} NothingToNumber(args: seq<int>, start: nat)
    requires forall i | 0 <= i < |args| :: args[i] >= 0
    ensures Freeze(args, start) == args && Unbound(args) == 0
  {
    if args != [] {
      NothingToNumber(args[1..], start);
      assert args == [args[0]] + args[1..];
    }
  }

  lemma SameMatches(args: seq<int>, n: nat, rel: seq<Row>, rows: set<Row>)
    requires ArgsWithin(args, n)
    ensures SomePairMatches(false, args, rel, rows) <==> SomePairMatches(true, args, rel, rows)
  {
    forall row, r
      ensures Compatible(false, args, row, r) <==> Compatible(true, args, row, r)
    {
      if |args| == |row| && JoinableArgs(args, |r|) {
        assert ArgsWithin(args, |r|);
        assert forall i | 0 <= i < |args| :: AgreesAt(false, args, row, r, i) == AgreesAt(true, args, row, r, i);
      }
    }
  }

  // ---------------------------------------------------------------------
  // The first literal, which keeps the last value of a repeated variable
  // ---------------------------------------------------------------------

  ghost predicate StartIsExact(lit: Literal, n: nat)
    requires ArgsWithin(lit.args, n)
  {
    forall rel, rows, db | JoinSetting(rel, rows, lit, n, {}, db) :: HomSet(StartSet(lit.args, rel, n), n, {lit}, db)
  }

  lemma NoTwinInNothing(lit: Literal, n: nat, image: Row, i: nat, j: nat)
    requires i < j < |lit.args| == |image| && image[i] == image[j] && lit.args[i] == lit.args[j] >= 0
    ensures Fact(lit.pred, image) !in GenericDb(lit, n, {})
  {
    assert !Occurs(lit.args[i], {});
    TwinFact(lit, n, {}, image, i, j);
  }

  lemma StartExactIff(lit: Literal, n: nat)
    requires ArgsWithin(lit.args, n)
    ensures StartIsExact(lit, n) <==> Distinct(lit.args)
  {
    if Distinct(lit.args) {
      forall rel, rows, db | JoinSetting(rel, rows, lit, n, {}, db)
        ensures HomSet(StartSet(lit.args, rel, n), n, {lit}, db)
      {
        StartIsJoin(lit, rel, n, db);
      }
    } else {
      var rel, rows := GenericSetting(lit, n, {});
      var row := GenericRow(lit.args, n, {});
      var r := Overwrite(lit.args, row, n, |lit.args|);
      assert r in StartSet(lit.args, rel, n);
      var i, j :| 0 <= i < j < |lit.args| && lit.args[i] == lit.args[j];
      assert !Occurs(lit.args[i], {});
      NoTwinInNothing(lit, n, Image(lit.args, r), i, j);
      assert lit in {lit} && !Satisfies(r, lit, GenericDb(lit, n, {}));
    }
  }
}
