/** Joining literals one by one over canonical relations, as the enumerator's
    nested-loops join does, and when the joined rows are homomorphisms
    (learner/CandidateLiteralEnumerator.cpp). */
module CanonicalJoin {
  import opened Collections
  import opened Query

  /** A row gives one value per clause variable; -1 marks a variable that no
      joined literal has reached yet. */
  type Row = seq<int>

  // ---------------------------------------------------------------------
  // One join step
  // ---------------------------------------------------------------------

  predicate JoinableArgs(args: seq<int>, n: nat) {
    forall i | 0 <= i < |args| :: -1 <= args[i] < n
  }

  /** Position i of a predicate row does not contradict the joined row. With
      checkBound, positions holding an unbound variable are not looked at. */
  predicate AgreesAt(checkBound: bool, args: seq<int>, row: Row, joined: Row, i: nat)
    requires i < |args| == |row| && JoinableArgs(args, |joined|)
    requires checkBound || args[i] >= 0
  {
    (checkBound && args[i] < 0) || joined[args[i]] == -1 || joined[args[i]] == row[i]
  }

  ghost predicate Compatible(checkBound: bool, args: seq<int>, row: Row, joined: Row) {
    && |args| == |row| && JoinableArgs(args, |joined|)
    && (checkBound || ArgsWithin(args, |joined|))
    && forall i | 0 <= i < |args| :: AgreesAt(checkBound, args, row, joined, i)
  }

  /** The joined row after the first n positions have been written: only
      variables still at -1 receive a value. */
  function Extend(args: seq<int>, row: Row, joined: Row, n: nat): (r: Row)
    requires n <= |args| == |row| && ArgsWithin(args, |joined|)
    ensures |r| == |joined|
  {
    if n == 0 then joined
    else
      var s := Extend(args, row, joined, n - 1);
      if s[args[n - 1]] == -1 then s[args[n - 1] := row[n - 1]] else s
  }

  ghost predicate JoinsTo(args: seq<int>, row: Row, joined: Row, result: Row) {
    Compatible(false, args, row, joined) && result == Extend(args, row, joined, |args|)
  }

  /** All results of joining a literal's relation with the joined rows. */
  ghost function JoinSet(args: seq<int>, rel: seq<Row>, joined: set<Row>): (results: set<Row>) {
    set row, r | row in rel && r in joined && Compatible(false, args, row, r) :: Extend(args, row, r, |args|)
  }

  ghost function RowSet(rows: seq<Row>): (all: set<Row>) {
    set r | r in rows
  }

  ghost predicate SomePairMatches(checkBound: bool, args: seq<int>, rel: seq<Row>, rows: set<Row>) {
    exists row, r :: row in rel && r in rows && Compatible(checkBound, args, row, r)
  }

  method RowMatches(checkBound: bool, args: seq<int>, row: Row, r: Row) returns (matches: bool)
    requires |args| == |row| && JoinableArgs(args, |r|) && (checkBound || ArgsWithin(args, |r|))
    ensures matches <==> Compatible(checkBound, args, row, r)
  {
    var i := 0;
    while i < |row| && AgreesAt(checkBound, args, row, r, i)
      invariant 0 <= i <= |row|
      invariant forall j | 0 <= j < i :: AgreesAt(checkBound, args, row, r, j)
    {
      i := i + 1;
    }
    matches := i == |row|;
  }

  method ExtendRow(args: seq<int>, row: Row, r: Row) returns (newRow: Row)
    requires |args| == |row| && ArgsWithin(args, |r|)
    ensures newRow == Extend(args, row, r, |args|)
  {
    newRow := r;
    for j := 0 to |row|
      invariant newRow == Extend(args, row, r, j)
    {
      if newRow[args[j]] == -1 {
        newRow := newRow[args[j] := row[j]];
      }
    }
  }

  method NestedLoopsJoin(checkBound: bool, returnIfAny: bool, args: seq<int>, rel: seq<Row>, joined: seq<Row>)
    returns (found: bool, joined': seq<Row>)
    requires forall row | row in rel :: |row| == |args|
    requires forall r | r in joined :: JoinableArgs(args, |r|)
    requires !checkBound ==> forall r | r in joined :: ArgsWithin(args, |r|)
    requires checkBound ==> returnIfAny
    ensures returnIfAny ==> (found <==> SomePairMatches(checkBound, args, rel, RowSet(joined)))
    ensures !returnIfAny ==> (found <==> joined' != [])
    ensures !returnIfAny ==> RowSet(joined') == JoinSet(args, rel, RowSet(joined))
  {
    var newRel: seq<Row> := [];
    for k := 0 to |rel|
      invariant returnIfAny ==>
        forall row, r :: row in rel[..k] && r in joined ==> !Compatible(checkBound, args, row, r)
      invariant returnIfAny ==> newRel == []
      invariant !returnIfAny ==>
        forall r' :: r' in newRel <==> exists row, r :: row in rel[..k] && r in joined && JoinsTo(args, row, r, r')
    {
      var row := rel[k];
      ghost var before := newRel;
      for m := 0 to |joined|
        invariant returnIfAny ==> forall r :: r in joined[..m] ==> !Compatible(checkBound, args, row, r)
        invariant returnIfAny ==> newRel == []
        invariant !returnIfAny ==>
          forall r' :: r' in newRel <==> r' in before || exists r :: r in joined[..m] && JoinsTo(args, row, r, r')
      {
        var r := joined[m];
        assert joined[..m + 1] == joined[..m] + [r];
        var matches := RowMatches(checkBound, args, row, r);
        if matches {
          if returnIfAny {
            return true, joined;
          }
          var newRow := ExtendRow(args, row, r);
          assert JoinsTo(args, row, r, newRow);
          newRel := newRel + [newRow];
        }
      }
      assert joined[..|joined|] == joined;
      assert rel[..k + 1] == rel[..k] + [row];
    }
    assert rel[..|rel|] == rel;
    joined' := newRel;
    found := joined' != [];
  }

  // ---------------------------------------------------------------------
  // Joined relations are the homomorphisms of the literals joined so far
  // ---------------------------------------------------------------------

  ghost predicate Occurs(v: int, ls: set<Literal>) {
    exists l :: l in ls && v in l.args
  }

  lemma OccursInUnion(v: int, ls: set<Literal>, lit: Literal)
    ensures Occurs(v, ls + {lit}) <==> Occurs(v, ls) || v in lit.args
  {
    if Occurs(v, ls + {lit}) {
      var l :| l in ls + {lit} && v in l.args;
      assert l == lit || l in ls;
    }
    if Occurs(v, ls) {
      var l :| l in ls && v in l.args;
      assert l in ls + {lit};
    }
    assert lit in ls + {lit};
  }

  /** r assigns exactly the variables of ls and maps every literal into db. */
  ghost predicate PartialHom(r: Row, n: nat, ls: set<Literal>, db: Database) {
    && |r| == n
    && (forall v | 0 <= v < n :: r[v] != -1 <==> Occurs(v, ls))
    && forall l | l in ls :: Satisfies(r, l, db)
  }

  ghost predicate HasHom(n: nat, ls: set<Literal>, db: Database) {
    exists r :: PartialHom(r, n, ls, db)
  }

  /** The rows are exactly the homomorphisms of ls into db. */
  ghost predicate HomSet(rows: set<Row>, n: nat, ls: set<Literal>, db: Database) {
    forall r :: r in rows <==> PartialHom(r, n, ls, db)
  }

  ghost predicate RowsAre(rows: seq<Row>, n: nat, ls: set<Literal>, db: Database) {
    HomSet(RowSet(rows), n, ls, db)
  }

  ghost predicate RelationOf(rel: seq<Row>, p: int, db: Database) {
    forall row :: row in rel <==> Fact(p, row) in db
  }

  ghost predicate NonNegative(db: Database) {
    forall f, i :: f in db && 0 <= i < |f.row| ==> f.row[i] >= 0
  }

  function FactsOf(ls: set<Literal>): (db: Database) {
    set l | l in ls :: Fact(l.pred, l.args)
  }

  /** Every variable of ls stands for itself. */
  ghost function IdentityRow(n: nat, ls: set<Literal>): (r: Row) {
    seq(n, v requires 0 <= v < n => if Occurs(v, ls) then v else -1)
  }

  lemma IdentityIsHom(n: nat, ls: set<Literal>, db: Database)
    requires forall l | l in ls :: ArgsWithin(l.args, n) && Fact(l.pred, l.args) in db
    ensures PartialHom(IdentityRow(n, ls), n, ls, db)
  {
    var r := IdentityRow(n, ls);
    forall l | l in ls
      ensures Satisfies(r, l, db)
    {
      forall i | 0 <= i < |l.args|
        ensures r[l.args[i]] == l.args[i]
      {
        assert Occurs(l.args[i], ls);
      }
      assert Image(l.args, r) == l.args;
    }
  }

  /** A variable that the literal repeats has been assigned by ls. */
  ghost predicate Anchored(args: seq<int>, ls: set<Literal>) {
    forall i, j | 0 <= i < j < |args| && args[i] == args[j] >= 0 :: Occurs(args[i], ls)
  }

  lemma AnchoredByMore(args: seq<int>, ls: set<Literal>, more: set<Literal>)
    requires Anchored(args, ls) && ls <= more
    ensures Anchored(args, more)
  {
    forall v | Occurs(v, ls)
      ensures Occurs(v, more)
    {
      var l :| l in ls && v in l.args;
      assert l in more;
    }
  }

  lemma DistinctIsAnchored(args: seq<int>)
    ensures ArgsWithinAny(args) ==> (Distinct(args) <==> Anchored(args, {}))
  {
    assert forall v :: !Occurs(v, {});
  }

  predicate ArgsWithinAny(args: seq<int>) {
    forall i | 0 <= i < |args| :: args[i] >= 0
  }

  lemma {:induction false} ExtendWrites(args: seq<int>, row: Row, joined: Row, n: nat)
    requires n <= |args| == |row| && ArgsWithin(args, |joined|)
    requires forall i | 0 <= i < n :: row[i] != -1
    requires forall i, j | 0 <= i < j < |args| && args[i] == args[j] :: joined[args[i]] != -1 || row[i] == row[j]
    ensures forall v | 0 <= v < |joined| && (joined[v] != -1 || v !in args[..n]) ::
              Extend(args, row, joined, n)[v] == joined[v]
    ensures forall i | 0 <= i < n && joined[args[i]] == -1 :: Extend(args, row, joined, n)[args[i]] == row[i]
  {
    if n > 0 {
      ExtendWrites(args, row, joined, n - 1);
      assert args[..n] == args[..n - 1] + [args[n - 1]];
      var a := args[n - 1];
      if joined[a] == -1 && a in args[..n - 1] {
        var i :| 0 <= i < n - 1 && args[..n - 1][i] == a;
        assert args[i] == args[n - 1];
      }
    }
  }

  lemma JoinIsSound(row: Row, r: Row, r': Row, lit: Literal, n: nat, ls: set<Literal>, db: Database)
    requires PartialHom(r, n, ls, db) && Fact(lit.pred, row) in db && NonNegative(db)
    requires ArgsWithin(lit.args, n) && Anchored(lit.args, ls)
    requires JoinsTo(lit.args, row, r, r')
    ensures PartialHom(r', n, ls + {lit}, db)
  {
    var f := Fact(lit.pred, row);
    assert forall i | 0 <= i < |row| :: f.row[i] >= 0;
    ExtendWrites(lit.args, row, r, |row|);
    assert lit.args[..|row|] == lit.args;
    forall i | 0 <= i < |row|
      ensures r'[lit.args[i]] == row[i]
    {
      assert AgreesAt(false, lit.args, row, r, i);
    }
    assert Image(lit.args, r') == row;
    forall l | l in ls
      ensures Satisfies(r', l, db)
    {
      forall i | 0 <= i < |l.args|
        ensures r'[l.args[i]] == r[l.args[i]]
      {
        assert Occurs(l.args[i], ls);
      }
      assert Image(l.args, r') == Image(l.args, r);
    }
    forall v | 0 <= v < n
      ensures r'[v] != -1 <==> Occurs(v, ls + {lit})
    {
      OccursInUnion(v, ls, lit);
    }
  }

  /** The part of a row that concerns the variables of ls. */
  ghost function Restrict(r: Row, ls: set<Literal>): (s: Row) {
    seq(|r|, v requires 0 <= v < |r| => if Occurs(v, ls) then r[v] else -1)
  }

  lemma RestrictIsHom(r: Row, n: nat, ls: set<Literal>, all: set<Literal>, db: Database)
    requires PartialHom(r, n, all, db) && ls <= all
    ensures PartialHom(Restrict(r, ls), n, ls, db)
  {
    var s := Restrict(r, ls);
    forall l | l in ls
      ensures Satisfies(s, l, db)
    {
      assert Satisfies(r, l, db);
      forall i | 0 <= i < |l.args|
        ensures s[l.args[i]] == r[l.args[i]]
      {
        assert Occurs(l.args[i], ls);
      }
      assert Image(l.args, s) == Image(l.args, r);
    }
    forall v | 0 <= v < n && Occurs(v, ls)
      ensures r[v] != -1
    {
      var l :| l in ls && v in l.args;
      assert l in all && Occurs(v, all);
    }
  }

  lemma JoinIsComplete(r': Row, lit: Literal, n: nat, ls: set<Literal>, db: Database) returns (row: Row, r: Row)
    requires PartialHom(r', n, ls + {lit}, db) && NonNegative(db)
    requires ArgsWithin(lit.args, n)
    ensures Fact(lit.pred, row) in db && PartialHom(r, n, ls, db) && JoinsTo(lit.args, row, r, r')
  {
    assert lit in ls + {lit};
    assert Satisfies(r', lit, db);
    row := Image(lit.args, r');
    r := Restrict(r', ls);
    RestrictIsHom(r', n, ls, ls + {lit}, db);
    var f := Fact(lit.pred, row);
    assert forall i | 0 <= i < |row| :: f.row[i] >= 0;
    forall i | 0 <= i < |row|
      ensures AgreesAt(false, lit.args, row, r, i)
    {
      assert row[i] == r'[lit.args[i]];
    }
    assert Compatible(false, lit.args, row, r);
    ExtendWrites(lit.args, row, r, |row|);
    assert lit.args[..|row|] == lit.args;
    forall v | 0 <= v < n
      ensures Extend(lit.args, row, r, |row|)[v] == r'[v]
    {
      OccursInUnion(v, ls, lit);
      if r[v] == -1 && v in lit.args {
        var i :| 0 <= i < |lit.args| && lit.args[i] == v;
      }
    }
  }

  /** Joining a literal whose repeated variables are assigned turns the
      homomorphisms of ls into those of ls + {lit}. */
  lemma JoinStep(rel: seq<Row>, rows: set<Row>, lit: Literal, n: nat, ls: set<Literal>, db: Database)
    requires HomSet(rows, n, ls, db) && RelationOf(rel, lit.pred, db) && NonNegative(db)
    requires ArgsWithin(lit.args, n) && Anchored(lit.args, ls)
    ensures HomSet(JoinSet(lit.args, rel, rows), n, ls + {lit}, db)
  {
    forall r'
      ensures r' in JoinSet(lit.args, rel, rows) <==> PartialHom(r', n, ls + {lit}, db)
    {
      if r' in JoinSet(lit.args, rel, rows) {
        var row, r :| row in rel && r in rows && JoinsTo(lit.args, row, r, r');
        JoinIsSound(row, r, r', lit, n, ls, db);
      }
      if PartialHom(r', n, ls + {lit}, db) {
        var row, r := JoinIsComplete(r', lit, n, ls, db);
        assert row in rel && r in rows;
      }
    }
  }

  // ---------------------------------------------------------------------
  // Starting from the first literal
  // ---------------------------------------------------------------------

  /** A blank row after the first k positions have been written; a later value of
      a variable replaces an earlier one. */
  function Overwrite(args: seq<int>, row: Row, n: nat, k: nat): (r: Row)
    requires k <= |args| == |row| && ArgsWithin(args, n)
    ensures |r| == n
  {
    if k == 0 then seq(n, _ => -1) else Overwrite(args, row, n, k - 1)[args[k - 1] := row[k - 1]]
  }

  /** Without repeated variables starting is joining with the blank row. */
  lemma {:induction false} OverwriteIsExtend(args: seq<int>, row: Row, n: nat, k: nat)
    requires k <= |args| == |row| && ArgsWithin(args, n) && Distinct(args)
    ensures Overwrite(args, row, n, k) == Extend(args, row, seq(n, _ => -1), k)
    ensures forall v | 0 <= v < n && v !in args[..k] :: Overwrite(args, row, n, k)[v] == -1
  {
    if k > 0 {
      OverwriteIsExtend(args, row, n, k - 1);
      assert args[..k] == args[..k - 1] + [args[k - 1]];
    }
  }

  lemma BlankIsOnlyHom(n: nat, db: Database)
    ensures HomSet({seq(n, _ => -1)}, n, {}, db)
  {
    var blank: Row := seq(n, _ => -1);
    forall r
      ensures r in {blank} <==> PartialHom(r, n, {}, db)
    {
      if PartialHom(r, n, {}, db) {
        assert forall v | 0 <= v < n :: !Occurs(v, {});
        assert r == blank;
      }
    }
  }

  ghost function StartSet(args: seq<int>, rel: seq<Row>, n: nat): (rows: set<Row>)
    requires ArgsWithin(args, n)
  {
    set row | row in rel && |row| == |args| :: Overwrite(args, row, n, |args|)
  }

  lemma StartIsJoin(lit: Literal, rel: seq<Row>, n: nat, db: Database)
    requires ArgsWithin(lit.args, n) && Distinct(lit.args) && RelationOf(rel, lit.pred, db) && NonNegative(db)
    ensures HomSet(StartSet(lit.args, rel, n), n, {lit}, db)
  {
    var blank: Row := seq(n, _ => -1);
    BlankIsOnlyHom(n, db);
    JoinStep(rel, {blank}, lit, n, {}, db);
    forall row | row in rel && |row| == |lit.args|
      ensures JoinsTo(lit.args, row, blank, Overwrite(lit.args, row, n, |lit.args|))
    {
      OverwriteJoins(lit.args, row, n);
    }
    forall r
      ensures r in JoinSet(lit.args, rel, {blank}) <==> r in StartSet(lit.args, rel, n)
    {
      if r in JoinSet(lit.args, rel, {blank}) {
        var row :| row in rel && Compatible(false, lit.args, row, blank)
        && r == Extend(lit.args, row, blank, |lit.args|);
        OverwriteJoins(lit.args, row, n);
      }
    }
    assert {} + {lit} == {lit};
  }

  lemma OverwriteJoins(args: seq<int>, row: Row, n: nat)
    requires |row| == |args| && ArgsWithin(args, n) && Distinct(args)
    ensures JoinsTo(args, row, seq(n, _ => -1), Overwrite(args, row, n, |args|))
  {
    var blank: Row := seq(n, _ => -1);
    forall i | 0 <= i < |args|
      ensures AgreesAt(false, args, row, blank, i)
    {
    }
    OverwriteIsExtend(args, row, n, |args|);
  }

  // ---------------------------------------------------------------------
  // The candidate literal with its unbound arguments numbered
  // ---------------------------------------------------------------------

  function Unbound(args: seq<int>): (n: nat) {
    if args == [] then 0 else (if args[0] < 0 then 1 else 0) + Unbound(args[1..])
  }

  /** Numbers the unbound arguments from start on, left to right. */
  function Freeze(args: seq<int>, start: nat): (r: seq<int>)
    ensures |r| == |args|
  {
    if args == [] then []
    else if args[0] < 0 then [start] + Freeze(args[1..], start + 1)
    else [args[0]] + Freeze(args[1..], start)
  }

  lemma FreezeShape(args: seq<int>, start: nat)
    requires JoinableArgs(args, start)
    ensures ArgsWithin(Freeze(args, start), start + Unbound(args))
    ensures forall i | 0 <= i < |args| ::
              if args[i] >= 0 then Freeze(args, start)[i] == args[i] else Freeze(args, start)[i] >= start
    ensures forall i, j | 0 <= i < j < |args| && Freeze(args, start)[i] == Freeze(args, start)[j] ::
              args[i] == args[j] >= 0
  {
    FreezeShapeFrom(args, start, start);
  }

  /** bound is a strict upper bound of the bound ids; numbering starts later. */
  lemma {:induction false} FreezeShapeFrom(args: seq<int>, bound: nat, start: nat)
    requires bound <= start && JoinableArgs(args, bound)
    ensures ArgsWithin(Freeze(args, start), start + Unbound(args))
    ensures forall i | 0 <= i < |args| ::
              if args[i] >= 0 then Freeze(args, start)[i] == args[i] else Freeze(args, start)[i] >= start
    ensures forall i, j | 0 <= i < j < |args| && Freeze(args, start)[i] == Freeze(args, start)[j] ::
              args[i] == args[j] >= 0
  {
    if args != [] {
      FreezeShapeFrom(args[1..], bound, if args[0] < 0 then start + 1 else start);
    }
  }

  /** Only bound variables can repeat in the numbered literal. */
  lemma FreezeIsAnchored(args: seq<int>, n: nat, ls: set<Literal>)
    requires JoinableArgs(args, n) && Anchored(args, ls)
    ensures Anchored(Freeze(args, n), ls)
  {
    FreezeShape(args, n);
  }

  lemma Grow(r: Row, n: nat, extra: nat, ls: set<Literal>, db: Database)
    requires PartialHom(r, n, ls, db)
    ensures PartialHom(r + seq(extra, _ => -1), n + extra, ls, db)
  {
    var r' := r + seq(extra, _ => -1);
    forall l | l in ls
      ensures Satisfies(r', l, db) && forall v | v in l.args :: v < n
    {
      assert Satisfies(r, l, db);
      assert Image(l.args, r') == Image(l.args, r);
    }
  }

  lemma Shrink(r: Row, n: nat, extra: nat, ls: set<Literal>, db: Database)
    requires PartialHom(r, n + extra, ls, db)
    requires forall l | l in ls :: ArgsWithin(l.args, n)
    ensures PartialHom(r[..n], n, ls, db)
  {
    forall l | l in ls
      ensures Satisfies(r[..n], l, db)
    {
      assert Satisfies(r, l, db);
      assert Image(l.args, r[..n]) == Image(l.args, r);
    }
  }

  lemma BoundMatchExtends(row: Row, r: Row, lit: Literal, n: nat, ls: set<Literal>, db: Database)
    requires PartialHom(r, n, ls, db) && Fact(lit.pred, row) in db && NonNegative(db)
    requires JoinableArgs(lit.args, n) && Anchored(lit.args, ls)
    requires Compatible(true, lit.args, row, r)
    ensures HasHom(n + Unbound(lit.args), ls + {Literal(lit.pred, Freeze(lit.args, n))}, db)
  {
    var fz, extra := Freeze(lit.args, n), Unbound(lit.args);
    FreezeShape(lit.args, n);
    FreezeIsAnchored(lit.args, n, ls);
    Grow(r, n, extra, ls, db);
    var wide := r + seq(extra, _ => -1);
    forall i | 0 <= i < |fz|
      ensures AgreesAt(false, fz, row, wide, i)
    {
      assert AgreesAt(true, lit.args, row, r, i);
    }
    JoinIsSound(row, wide, Extend(fz, row, wide, |fz|), Literal(lit.pred, fz), n + extra, ls, db);
  }

  lemma ExtensionHasBoundMatch(lit: Literal, n: nat, ls: set<Literal>, db: Database) returns (row: Row, r: Row)
    requires HasHom(n + Unbound(lit.args), ls + {Literal(lit.pred, Freeze(lit.args, n))}, db)
    requires NonNegative(db) && JoinableArgs(lit.args, n)
    requires forall l | l in ls :: ArgsWithin(l.args, n)
    ensures PartialHom(r, n, ls, db) && Fact(lit.pred, row) in db && Compatible(true, lit.args, row, r)
  {
    var fz, extra := Freeze(lit.args, n), Unbound(lit.args);
    var numbered := Literal(lit.pred, fz);
    FreezeShape(lit.args, n);
    var r' :| PartialHom(r', n + extra, ls + {numbered}, db);
    var wide: Row;
    row, wide := JoinIsComplete(r', numbered, n + extra, ls, db);
    Shrink(wide, n, extra, ls, db);
    r := wide[..n];
    forall i | 0 <= i < |lit.args|
      ensures AgreesAt(true, lit.args, row, r, i)
    {
      assert AgreesAt(false, fz, row, wide, i);
    }
  }

  /** Testing only the bound arguments of the candidate decides whether the
      joined homomorphisms extend to the candidate with numbered arguments. */
  lemma BoundTestDecides(rel: seq<Row>, rows: set<Row>, lit: Literal, n: nat, ls: set<Literal>, db: Database)
    requires HomSet(rows, n, ls, db) && RelationOf(rel, lit.pred, db) && NonNegative(db)
    requires forall l | l in ls :: ArgsWithin(l.args, n)
    requires JoinableArgs(lit.args, n) && Anchored(lit.args, ls)
    ensures SomePairMatches(true, lit.args, rel, rows)
            <==> HasHom(n + Unbound(lit.args), ls + {Literal(lit.pred, Freeze(lit.args, n))}, db)
  {
    if SomePairMatches(true, lit.args, rel, rows) {
      var row, r :| row in rel && r in rows && Compatible(true, lit.args, row, r);
      BoundMatchExtends(row, r, lit, n, ls, db);
    }
    if HasHom(n + Unbound(lit.args), ls + {Literal(lit.pred, Freeze(lit.args, n))}, db) {
      var row, r := ExtensionHasBoundMatch(lit, n, ls, db);
      assert row in rel && r in rows;
    }
  }

  /** A join that only asks for any compatible pair decides whether some
      homomorphism of one more literal exists. */
  lemma AnyTestDecides(rel: seq<Row>, rows: set<Row>, lit: Literal, n: nat, ls: set<Literal>, db: Database)
    requires HomSet(rows, n, ls, db) && RelationOf(rel, lit.pred, db) && NonNegative(db)
    requires ArgsWithin(lit.args, n) && Anchored(lit.args, ls)
    ensures SomePairMatches(false, lit.args, rel, rows) <==> HasHom(n, ls + {lit}, db)
  {
    if SomePairMatches(false, lit.args, rel, rows) {
      var row, r :| row in rel && r in rows && Compatible(false, lit.args, row, r);
      JoinIsSound(row, r, Extend(lit.args, row, r, |lit.args|), lit, n, ls, db);
    }
    if HasHom(n, ls + {lit}, db) {
      var r' :| PartialHom(r', n, ls + {lit}, db);
      var row, r := JoinIsComplete(r', lit, n, ls, db);
      assert row in rel && r in rows && Compatible(false, lit.args, row, r);
    }
  }
}
