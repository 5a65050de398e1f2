/** Conjunctive clauses over finite databases, and the homomorphism criterion
    on which the enumerator's duplicate test rests. */
module Query {

  /** A literal names a predicate and one variable id per argument; id -1 is the
      unbound variable. */
  datatype Literal = Literal(pred: int, args: seq<int>)

  /** head :- body over the variables 0 .. numVars - 1. */
  datatype Clause = Clause(head: Literal, body: seq<Literal>, numVars: nat)

  datatype Fact = Fact(pred: int, row: seq<int>)

  type Database = set<Fact>

  predicate ArgsWithin(args: seq<int>, n: nat) {
    forall i | 0 <= i < |args| :: 0 <= args[i] < n
  }

  predicate Distinct(args: seq<int>) {
    forall i, j | 0 <= i < j < |args| :: args[i] != args[j]
  }

  ghost predicate WellFormed(c: Clause) {
    && ArgsWithin(c.head.args, c.numVars)
    && forall l | l in c.body :: ArgsWithin(l.args, c.numVars)
  }

  function Image(args: seq<int>, sigma: seq<int>): (row: seq<int>)
    requires ArgsWithin(args, |sigma|)
  {
    seq(|args|, i requires 0 <= i < |args| => sigma[args[i]])
  }

  ghost predicate Satisfies(sigma: seq<int>, l: Literal, db: Database) {
    ArgsWithin(l.args, |sigma|) && Fact(l.pred, Image(l.args, sigma)) in db
  }

  /** sigma makes the clause produce the head tuple t. */
  ghost predicate Witnesses(c: Clause, db: Database, t: seq<int>, sigma: seq<int>)
    requires WellFormed(c)
  {
    && |sigma| == c.numVars
    && Image(c.head.args, sigma) == t
    && forall l | l in c.body :: Satisfies(sigma, l, db)
  }

  ghost predicate Derives(c: Clause, db: Database, t: seq<int>)
    requires WellFormed(c)
  {
    exists sigma :: Witnesses(c, db, t, sigma)
  }

  ghost predicate ContainedIn(c1: Clause, c2: Clause)
    requires WellFormed(c1) && WellFormed(c2)
  {
    forall db, t :: Derives(c1, db, t) ==> Derives(c2, db, t)
  }

  /** The two clauses produce the same head tuples over every database. */
  ghost predicate Equivalent(c1: Clause, c2: Clause)
    requires WellFormed(c1) && WellFormed(c2)
  {
    forall db, t :: Derives(c1, db, t) <==> Derives(c2, db, t)
  }

  /** The canonical database of a clause: its variables become constants. */
  function Frozen(c: Clause): (db: Database) {
    set l | l in c.body :: Fact(l.pred, l.args)
  }

  /** h maps c1 into the frozen copy of c2 and fixes the head. */
  ghost predicate Homomorphism(c1: Clause, c2: Clause, h: seq<int>)
    requires WellFormed(c1)
  {
    Witnesses(c1, Frozen(c2), c2.head.args, h)
  }

  function Compose(h: seq<int>, sigma: seq<int>): (r: seq<int>)
    ensures |r| == |h|
  {
    seq(|h|, v requires 0 <= v < |h| => if 0 <= h[v] < |sigma| then sigma[h[v]] else 0)
  }

  lemma ImageOfCompose(args: seq<int>, h: seq<int>, sigma: seq<int>)
    requires ArgsWithin(args, |h|)
    requires ArgsWithin(Image(args, h), |sigma|)
    ensures Image(args, Compose(h, sigma)) == Image(Image(args, h), sigma)
  {
    forall i | 0 <= i < |args|
      ensures Image(args, Compose(h, sigma))[i] == Image(Image(args, h), sigma)[i]
    {
      assert Image(args, h)[i] == h[args[i]];
    }
  }

  lemma HomomorphismImpliesContainment(c1: Clause, c2: Clause, h: seq<int>)
    requires WellFormed(c1) && WellFormed(c2)
    requires Homomorphism(c1, c2, h)
    ensures ContainedIn(c2, c1)
  {
    forall db, t | Derives(c2, db, t)
      ensures Derives(c1, db, t)
    {
      var sigma :| Witnesses(c2, db, t, sigma);
      var r := Compose(h, sigma);
      ImageOfCompose(c1.head.args, h, sigma);
      forall l | l in c1.body
        ensures Satisfies(r, l, db)
      {
        assert Satisfies(h, l, Frozen(c2));
        var m :| m in c2.body && Fact(m.pred, m.args) == Fact(l.pred, Image(l.args, h));
        ImageOfCompose(l.args, h, sigma);
        assert Satisfies(sigma, m, db);
      }
      assert Witnesses(c1, db, t, r);
    }
  }

  lemma ContainmentImpliesHomomorphism(c1: Clause, c2: Clause)
    requires WellFormed(c1) && WellFormed(c2)
    requires ContainedIn(c2, c1)
    ensures exists h :: Homomorphism(c1, c2, h)
  {
    var id := seq(c2.numVars, v => v);
    assert Image(c2.head.args, id) == c2.head.args;
    forall l | l in c2.body
      ensures Satisfies(id, l, Frozen(c2))
    {
      assert Image(l.args, id) == l.args;
    }
    assert Witnesses(c2, Frozen(c2), c2.head.args, id);
    assert Derives(c2, Frozen(c2), c2.head.args);
    var h :| Witnesses(c1, Frozen(c2), c2.head.args, h);
    assert Homomorphism(c1, c2, h);
  }

  /** Chandra and Merlin: containment of clauses is existence of a
      homomorphism in the other direction. */
  lemma EquivalenceIsMutualHomomorphism(c1: Clause, c2: Clause)
    requires WellFormed(c1) && WellFormed(c2)
    ensures Equivalent(c1, c2) <==>
            (exists h :: Homomorphism(c1, c2, h)) && (exists h :: Homomorphism(c2, c1, h))
  {
    if Equivalent(c1, c2) {
      ContainmentImpliesHomomorphism(c1, c2);
      ContainmentImpliesHomomorphism(c2, c1);
    }
    if (exists h :: Homomorphism(c1, c2, h)) && (exists h :: Homomorphism(c2, c1, h)) {
      var h :| Homomorphism(c1, c2, h);
      var g :| Homomorphism(c2, c1, g);
      HomomorphismImpliesContainment(c1, c2, h);
      HomomorphismImpliesContainment(c2, c1, g);
    }
  }
}
