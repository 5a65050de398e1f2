/** The replaceable-duplicate test of learner/CandidateLiteralEnumerator.cpp and
    what it decides. */
module DuplicateCheck {
  import opened Collections
  import opened Query
  import opened CanonicalJoin

  // ---------------------------------------------------------------------
  // Clauses, their groups of literals, and replacement
  // ---------------------------------------------------------------------

  /** Stands for the head when it is joined like a literal; body predicates
      have non-negative ids. */
  const HEAD := -1

  /** What the test asks of a clause: ids in range, one arity per predicate, and
      every variable that a body literal repeats in an earlier literal of the
      same predicate, as the predicates are joined in no particular order. */
  ghost predicate Testable(c: Clause) {
    && WellFormed(c)
    && c.head.pred >= 0 && Distinct(c.head.args)
    && (forall l | l in c.body :: l.pred >= 0)
    && (forall l, m | l in c.body && m in c.body && l.pred == m.pred :: |l.args| == |m.args|)
    && (forall l | l in c.body && l.pred == c.head.pred :: |l.args| == |c.head.args|)
    && forall q :: GroupAnchored(GroupOf(c.body, q))
  }

  ghost predicate GroupAnchored(group: seq<Literal>) {
    forall g | 0 <= g < |group| :: Anchored(group[g].args, Part(group, 0, g, -1))
  }

  ghost predicate CandidateFits(lit: Literal, c: Clause) {
    && lit.pred >= 0
    && JoinableArgs(lit.args, c.numVars)
    && (forall l | l in c.body && l.pred == lit.pred :: |l.args| == |lit.args|)
  }

  /** Without literal k of its predicate, every variable that the candidate or
      another literal of the predicate repeats is assigned before it is joined. */
  ghost predicate AnchoredWithout(c: Clause, lit: Literal, k: nat) {
    var group, ls := GroupOf(c.body, lit.pred), CanonicalLits(c, lit.pred);
    && (forall g | 0 <= g < |group| && g != k :: Anchored(group[g].args, ls + Part(group, 0, g, k)))
    && Anchored(lit.args, ls + Part(group, 0, |group|, k))
  }

  ghost predicate CandidateAnchored(c: Clause, lit: Literal) {
    forall k | 0 <= k < |GroupOf(c.body, lit.pred)| :: AnchoredWithout(c, lit, k)
  }

  function GroupOf(body: seq<Literal>, p: int): (group: seq<Literal>)
    ensures forall l :: l in group <==> l in body && l.pred == p
    ensures group == [] <==> forall l | l in body :: l.pred != p
  {
    if body == [] then []
    else if body[|body| - 1].pred == p then GroupOf(body[..|body| - 1], p) + [body[|body| - 1]]
    else GroupOf(body[..|body| - 1], p)
  }

  ghost predicate IsGrouping(groups: map<int, seq<Literal>>, body: seq<Literal>) {
    && (forall p :: p in groups <==> GroupOf(body, p) != [])
    && forall p | p in groups :: groups[p] == GroupOf(body, p)
  }

  method GroupByPredicate(body: seq<Literal>) returns (groups: map<int, seq<Literal>>)
    ensures IsGrouping(groups, body)
  {
    groups := map[];
    for i := 0 to |body|
      invariant IsGrouping(groups, body[..i])
    {
      var p := body[i].pred;
      groups := groups[p := (if p in groups then groups[p] else []) + [body[i]]];
      assert body[..i + 1][..i] == body[..i];
    }
    assert body[..|body|] == body;
  }

  function Rows(group: seq<Literal>): (rows: seq<Row>)
    ensures |rows| == |group| && forall i | 0 <= i < |group| :: rows[i] == group[i].args
    ensures forall row :: row in rows <==> exists l :: l in group && l.args == row
  {
    var rows := seq(|group|, i requires 0 <= i < |group| => group[i].args);
    assert forall l | l in group :: l.args in rows by {
      forall l | l in group ensures l.args in rows {
        var i :| 0 <= i < |group| && group[i] == l;
        assert rows[i] == l.args;
      }
    }
    rows
  }

  /** The clause with body literal k taken out and the candidate put in. */
  function Replace(c: Clause, k: nat, lit: Literal): (r: Clause)
    requires k < |c.body|
  {
    Clause(c.head,
           c.body[..k] + c.body[k + 1..] + [Literal(lit.pred, Freeze(lit.args, c.numVars))],
           c.numVars + Unbound(lit.args))
  }

  function Others(c: Clause, p: int): (ls: set<Literal>) {
    set l | l in c.body && l.pred != p
  }

  ghost predicate HeadAmong(c: Clause, p: int) {
    exists l :: l in Others(c, p) && l.pred == c.head.pred
  }

  function HeadLiteral(c: Clause): (l: Literal) {
    Literal(HEAD, c.head.args)
  }

  /** What CreateCanonicalDatabase joins: the literals of the other predicates,
      and the head unless its predicate is one of them. */
  ghost function CanonicalLits(c: Clause, p: int): (ls: set<Literal>) {
    Others(c, p) + (if HeadAmong(c, p) then {} else {HeadLiteral(c)})
  }

  ghost function CanonicalDb(c: Clause, p: int): (db: Database) {
    FactsOf(Others(c, p)) + {Fact(HEAD, c.head.args)}
    + (if HeadAmong(c, p) then {Fact(c.head.pred, c.head.args)} else {})
  }

  /** Literals only look at facts of their own predicate. */
  lemma RelevantFactsOnly(rows: set<Row>, n: nat, ls: set<Literal>, db: Database, db': Database)
    requires HomSet(rows, n, ls, db)
    requires forall l, f: Fact | l in ls && f.pred == l.pred :: f in db <==> f in db'
    ensures HomSet(rows, n, ls, db')
  {
    forall r
      ensures PartialHom(r, n, ls, db) <==> PartialHom(r, n, ls, db')
    {
      forall l | l in ls
        ensures Satisfies(r, l, db) <==> Satisfies(r, l, db')
      {
      }
    }
  }

  // ---------------------------------------------------------------------
  // From partial to total homomorphisms
  // ---------------------------------------------------------------------

  ghost function HomLits(c: Clause): (ls: set<Literal>) {
    (set l | l in c.body) + {HeadLiteral(c)}
  }

  ghost function HomDb(c: Clause): (db: Database) {
    Frozen(c) + {Fact(HEAD, c.head.args)}
  }

  ghost predicate NoHeadSymbol(c: Clause) {
    forall l | l in c.body :: l.pred >= 0
  }

  lemma PartialIffTotal(c1: Clause, c2: Clause)
    requires WellFormed(c1) && WellFormed(c2) && NoHeadSymbol(c1) && NoHeadSymbol(c2)
    requires |c1.head.args| == |c2.head.args|
    ensures HasHom(c1.numVars, HomLits(c1), HomDb(c2)) <==> (exists h :: Homomorphism(c1, c2, h))
  {
    var head := HeadLiteral(c1);
    if HasHom(c1.numVars, HomLits(c1), HomDb(c2)) {
      var r :| PartialHom(r, c1.numVars, HomLits(c1), HomDb(c2));
      assert Satisfies(r, head, HomDb(c2)) by { assert head in HomLits(c1); }
      forall l | l in c1.body
        ensures Satisfies(r, l, Frozen(c2))
      {
        assert l in HomLits(c1);
      }
      assert Homomorphism(c1, c2, r);
    }
    if exists h :: Homomorphism(c1, c2, h) {
      var h :| Homomorphism(c1, c2, h);
      forall l | l in HomLits(c1)
        ensures Satisfies(h, l, HomDb(c2))
      {
        if l != head { assert Satisfies(h, l, Frozen(c2)); }
      }
      TrimToPartial(h, c1.numVars, HomLits(c1), HomDb(c2));
    }
  }

  lemma TrimToPartial(h: Row, n: nat, ls: set<Literal>, db: Database)
    requires |h| == n && NonNegative(db)
    requires forall l | l in ls :: Satisfies(h, l, db)
    ensures PartialHom(Restrict(h, ls), n, ls, db)
  {
    var r := Restrict(h, ls);
    forall l | l in ls
      ensures Satisfies(r, l, db)
      ensures forall v | v in l.args :: 0 <= v < n && h[v] != -1
    {
      assert Satisfies(h, l, db);
      var f := Fact(l.pred, Image(l.args, h));
      assert forall i | 0 <= i < |f.row| :: f.row[i] >= 0;
      forall i | 0 <= i < |l.args|
        ensures r[l.args[i]] == h[l.args[i]] != -1
      {
        assert Occurs(l.args[i], ls);
        assert f.row[i] == h[l.args[i]];
      }
      assert Image(l.args, r) == Image(l.args, h);
    }
  }

  // ---------------------------------------------------------------------
  // The enumerator's methods
  // ---------------------------------------------------------------------

  function SetOf(group: seq<Literal>): (ls: set<Literal>)
    ensures forall l :: l in ls <==> l in group
  {
    set l | l in group
  }

  /** The literals at positions lo .. hi - 1, without the one at skip. */
  function Part(group: seq<Literal>, lo: nat, hi: nat, skip: int): (ls: set<Literal>)
    requires lo <= hi <= |group|
  {
    set i | lo <= i < hi && i != skip :: group[i]
  }

  /** The literals belong to the predicate and to its relation. */
  ghost predicate FitsRelation(group: seq<Literal>, q: int, rel: seq<Row>, n: nat) {
    && (forall l | l in group :: l.pred == q && ArgsWithin(l.args, n))
    && forall l, row | l in group && row in rel :: |l.args| == |row|
  }

  ghost predicate RowsFit(rows: seq<Row>, n: nat) {
    forall r | r in rows :: |r| == n
  }

  /** The relation started from the first literal of the first group; a later
      value of a repeated variable replaces an earlier one. */
  method StartRelation(args: seq<int>, rel: seq<Row>, n: nat) returns (rows: seq<Row>)
    requires ArgsWithin(args, n) && forall row | row in rel :: |row| == |args|
    ensures RowSet(rows) == StartSet(args, rel, n) && RowsFit(rows, n)
  {
    rows := [];
    for k := 0 to |rel|
      invariant RowSet(rows) == StartSet(args, rel[..k], n) && RowsFit(rows, n)
    {
      var row := rel[k];
      assert rel[..k + 1] == rel[..k] + [row];
      var newRow: Row := seq(n, _ => -1);
      for i := 0 to |row|
        invariant newRow == Overwrite(args, row, n, i)
      {
        newRow := newRow[args[i] := row[i]];
      }
      StartSnoc(args, rel[..k], row, n, rows);
      rows := rows + [newRow];
    }
    assert rel[..|rel|] == rel;
  }

  lemma StartSnoc(args: seq<int>, rel: seq<Row>, row: Row, n: nat, rows: seq<Row>)
    requires ArgsWithin(args, n) && |row| == |args| && RowSet(rows) == StartSet(args, rel, n)
    ensures RowSet(rows + [Overwrite(args, row, n, |args|)]) == StartSet(args, rel + [row], n)
  {
    var newRow := Overwrite(args, row, n, |args|);
    forall r
      ensures r in RowSet(rows + [newRow]) <==> r in StartSet(args, rel + [row], n)
    {
      assert r in rows + [newRow] <==> r in RowSet(rows) || r == newRow;
      if r in StartSet(args, rel, n) {
        var x :| x in rel && |x| == |args| && r == Overwrite(args, x, n, |args|);
        assert x in rel + [row];
      }
      assert row in rel + [row];
    }
  }

  /** The rows after joining the literals first .. last - 1 except the skipped one. */
  ghost function JoinGroupSet(group: seq<Literal>, first: nat, last: nat, skip: int, rel: seq<Row>,
                              rows: set<Row>): (r: set<Row>)
    requires first <= last <= |group|
    decreases last
  {
    if first == last then rows
    else
      var before := JoinGroupSet(group, first, last - 1, skip, rel, rows);
      if last - 1 == skip then before else JoinSet(group[last - 1].args, rel, before)
  }

  /** Joins every literal of one predicate from position first on, except the
      one at position skip. */
  method JoinGroup(group: seq<Literal>, first: nat, last: nat, skip: int, rel: seq<Row>, rows: seq<Row>, n: nat,
                   ghost q: int)
    returns (rows': seq<Row>)
    requires first <= last <= |group| && FitsRelation(group, q, rel, n) && RowsFit(rows, n)
    ensures RowSet(rows') == JoinGroupSet(group, first, last, skip, rel, RowSet(rows)) && RowsFit(rows', n)
  {
    rows' := rows;
    for k := first to last
      invariant RowSet(rows') == JoinGroupSet(group, first, k, skip, rel, RowSet(rows)) && RowsFit(rows', n)
    {
      if k != skip {
        rows' := JoinLiteral(group, k, rel, rows', n, q);
      }
    }
  }

  method JoinLiteral(group: seq<Literal>, k: nat, rel: seq<Row>, rows: seq<Row>, n: nat, ghost q: int)
    returns (rows': seq<Row>)
    requires k < |group| && FitsRelation(group, q, rel, n) && RowsFit(rows, n)
    ensures RowSet(rows') == JoinSet(group[k].args, rel, RowSet(rows)) && RowsFit(rows', n)
  {
    assert group[k] in group;
    var nonEmpty;
    nonEmpty, rows' := NestedLoopsJoin(false, false, group[k].args, rel, rows);
    forall r | r in rows'
      ensures |r| == n
    {
      assert r in RowSet(rows');
    }
  }

  /** With repeated variables assigned in time the joined rows are homomorphisms. */
  lemma {:induction false} JoinGroupSetIsHoms(group: seq<Literal>, first: nat, last: nat, skip: int, rel: seq<Row>,
                                              rows: set<Row>, n: nat,
                                              q: int, ls: set<Literal>, db: Database)
    requires first <= last <= |group| && FitsRelation(group, q, rel, n)
    requires HomSet(rows, n, ls, db) && RelationOf(rel, q, db) && NonNegative(db)
    requires forall g | first <= g < last && g != skip :: Anchored(group[g].args, ls + Part(group, first, g, skip))
    ensures HomSet(JoinGroupSet(group, first, last, skip, rel, rows), n, ls + Part(group, first, last, skip), db)
    decreases last
  {
    hide HomSet, RelationOf, NonNegative, Anchored, JoinSet;
    if first == last {
      assert ls + Part(group, first, first, skip) == ls;
    } else {
      JoinGroupSetIsHoms(group, first, last - 1, skip, rel, rows, n, q, ls, db);
      PartStep(group, first, last, skip, ls);
      assert group[last - 1] in group;
      hide Part, FitsRelation;
      if last - 1 != skip {
        JoinStep(rel, JoinGroupSet(group, first, last - 1, skip, rel, rows), group[last - 1], n,
                 ls + Part(group, first, last - 1, skip), db);
      }
    }
  }

  lemma PartStep(group: seq<Literal>, first: nat, last: nat, skip: int, ls: set<Literal>)
    requires first < last <= |group|
    ensures var joined := ls + Part(group, first, last - 1, skip);
            ls + Part(group, first, last, skip) == if last - 1 == skip then joined else joined + {group[last - 1]}
  {
  }

  /** Joins all literals of one predicate; the first group starts the relation. */
  method JoinPredicate(group: seq<Literal>, rel: seq<Row>, rows: seq<Row>, n: nat,
                       ghost q: int, ghost ls: set<Literal>, ghost db: Database) returns (rows': seq<Row>)
    requires group != [] && GroupAnchored(group)
    requires FitsRelation(group, q, rel, n)
    requires RelationOf(rel, q, db) && NonNegative(db)
    requires if ls == {} then rows == [] else rows != [] && RowsAre(rows, n, ls, db)
    ensures RowsAre(rows', n, ls + SetOf(group), db)
  {
    assert group[0] in group;
    if rows == [] {
      FirstIsDistinct(group, n);
      rows' := StartRelation(group[0].args, rel, n);
      StartIsJoin(group[0], rel, n, db);
      AnchoredFrom(group, 1, {group[0]});
      JoinGroupSetIsHoms(group, 1, |group|, -1, rel, RowSet(rows'), n, q, {group[0]}, db);
      rows' := JoinGroup(group, 1, |group|, -1, rel, rows', n, q);
      assert {group[0]} + Part(group, 1, |group|, -1) == ls + SetOf(group);
    } else {
      RowsHaveSize(rows, n, ls, db);
      AnchoredFrom(group, 0, ls);
      JoinGroupSetIsHoms(group, 0, |group|, -1, rel, RowSet(rows), n, q, ls, db);
      rows' := JoinGroup(group, 0, |group|, -1, rel, rows, n, q);
      assert Part(group, 0, |group|, -1) == SetOf(group);
    }
  }

  lemma FirstIsDistinct(group: seq<Literal>, n: nat)
    requires group != [] && GroupAnchored(group) && ArgsWithin(group[0].args, n)
    ensures Distinct(group[0].args)
  {
    assert Part(group, 0, 0, -1) == {};
    assert Anchored(group[0].args, Part(group, 0, 0, -1));
    DistinctIsAnchored(group[0].args);
  }

  /** Literals joined before only help. */
  lemma AnchoredFrom(group: seq<Literal>, first: nat, ls: set<Literal>)
    requires GroupAnchored(group) && first <= |group| && Part(group, 0, first, -1) <= ls
    ensures forall g | first <= g < |group| :: Anchored(group[g].args, ls + Part(group, first, g, -1))
  {
    hide Anchored;
    forall g | first <= g < |group|
      ensures Anchored(group[g].args, ls + Part(group, first, g, -1))
    {
      assert Part(group, 0, g, -1) == Part(group, 0, first, -1) + Part(group, first, g, -1);
      AnchoredByMore(group[g].args, Part(group, 0, g, -1), ls + Part(group, first, g, -1));
    }
  }

  lemma RowsHaveSize(rows: seq<Row>, n: nat, ls: set<Literal>, db: Database)
    requires RowsAre(rows, n, ls, db)
    ensures RowsFit(rows, n)
  {
    forall r | r in rows
      ensures |r| == n
    {
      assert r in RowSet(rows);
    }
  }

  method JoinHead(c: Clause, rows: seq<Row>, ghost ls: set<Literal>, ghost db: Database) returns (rows': seq<Row>)
    requires Testable(c) && NonNegative(db)
    requires RelationOf([c.head.args], HEAD, db)
    requires if ls == {} then rows == [] else rows != [] && RowsAre(rows, c.numVars, ls, db)
    ensures RowsAre(rows', c.numVars, ls + {HeadLiteral(c)}, db)
  {
    if rows == [] {
      var row: Row := seq(c.numVars, _ => -1);
      for i := 0 to |c.head.args|
        invariant |row| == c.numVars
        invariant forall v | 0 <= v < c.numVars :: row[v] == if v in c.head.args[..i] then v else -1
      {
        row := row[c.head.args[i] := c.head.args[i]];
      }
      HeadRowIsOnlyHom(c, row, db);
      assert ls + {HeadLiteral(c)} == {HeadLiteral(c)};
      rows' := [row];
    } else {
      RowsHaveSize(rows, c.numVars, ls, db);
      DistinctAnchored(c.head.args, ls);
      JoinStep([c.head.args], RowSet(rows), HeadLiteral(c), c.numVars, ls, db);
      rows' := JoinLiteral([HeadLiteral(c)], 0, [c.head.args], rows, c.numVars, HEAD);
    }
  }

  lemma DistinctAnchored(args: seq<int>, ls: set<Literal>)
    requires Distinct(args)
    ensures Anchored(args, ls)
  {
  }

  /** The clause without the k-th literal of the group but with the candidate
      maps into the clause. */
  ghost predicate MapsForward(c: Clause, lit: Literal, k: nat)
    requires k < |GroupOf(c.body, lit.pred)|
  {
    var group := GroupOf(c.body, lit.pred);
    HasHom(c.numVars + Unbound(lit.args),
           CanonicalLits(c, lit.pred) + Part(group, 0, |group|, k) + {Numbered(c, lit)},
           CanonicalDb(c, lit.pred) + FactsOf(SetOf(group)))
  }

  /** The clause maps into itself with the k-th literal of the group replaced. */
  ghost predicate MapsBack(c: Clause, lit: Literal, k: nat)
    requires k < |GroupOf(c.body, lit.pred)|
  {
    var group := GroupOf(c.body, lit.pred);
    HasHom(c.numVars,
           CanonicalLits(c, lit.pred) + SetOf(group),
           CanonicalDb(c, lit.pred) + FactsOf(Part(group, 0, |group|, k) + {Numbered(c, lit)}))
  }

  function Numbered(c: Clause, lit: Literal): (l: Literal) {
    Literal(lit.pred, Freeze(lit.args, c.numVars))
  }

  ghost predicate SomeMutual(c: Clause, lit: Literal) {
    exists k :: 0 <= k < |GroupOf(c.body, lit.pred)| && MapsForward(c, lit, k) && MapsBack(c, lit, k)
  }

  /** Replacing body literal b by the candidate leaves the clause's answers alone. */
  ghost predicate ReplaceableAt(c: Clause, lit: Literal, b: nat)
    requires b < |c.body|
  {
    && c.body[b].pred == lit.pred
    && WellFormed(c) && WellFormed(Replace(c, b, lit))
    && Equivalent(c, Replace(c, b, lit))
  }

  ghost predicate IsReplaceableDuplicate(c: Clause, lit: Literal) {
    exists b :: 0 <= b < |c.body| && ReplaceableAt(c, lit, b)
  }

  // ---------------------------------------------------------------------
  // The two tests
  // ---------------------------------------------------------------------

  /** The candidate matches after joining the other literals of its predicate. */
  ghost predicate ForwardMatches(lit: Literal, group: seq<Literal>, k: nat, canonical: set<Row>) {
    SomePairMatches(true, lit.args, Rows(group), JoinGroupSet(group, 0, |group|, k, Rows(group), canonical))
  }

  /** The relation of the predicate with literal k replaced by the candidate. */
  function RelationWith(lit: Literal, group: seq<Literal>, k: nat, n: nat): (rel: seq<Row>)
    requires k < |group|
  {
    Rows(group)[..k] + Rows(group)[k + 1..] + [Freeze(lit.args, n)]
  }

  /** The predicate's literals all match the relation with the candidate. */
  ghost predicate BackMatches(lit: Literal, group: seq<Literal>, k: nat, n: nat, canonical: set<Row>)
    requires k < |group|
  {
    var rel, last := RelationWith(lit, group, k, n), |group| - 1;
    SomePairMatches(false, group[last].args, rel, JoinGroupSet(group, 0, last, -1, rel, canonical))
  }

  /** What the test answers, whatever the candidate repeats. */
  ghost predicate Verdict(c: Clause, lit: Literal, canonical: set<Row>) {
    var group := GroupOf(c.body, lit.pred);
    exists k ::
      0 <= k < |group| && ForwardMatches(lit, group, k, canonical) && BackMatches(lit, group, k, c.numVars, canonical)
  }

  method TestForward(c: Clause, lit: Literal, group: seq<Literal>, k: nat, rel: seq<Row>, canonical: seq<Row>)
    returns (yes: bool)
    requires Testable(c) && CandidateFits(lit, c) && group == GroupOf(c.body, lit.pred) && k < |group|
    requires RowsFit(canonical, c.numVars) && rel == Rows(group)
    ensures yes <==> ForwardMatches(lit, group, k, RowSet(canonical))
  {
    GroupFits(c, lit.pred);
    CandidateRows(c, lit);
    hide Testable, Rows, GroupOf, JoinGroupSet, SomePairMatches;
    var joined := JoinGroup(group, 0, |group|, k, rel, canonical, c.numVars, lit.pred);
    var unused;
    yes, unused := NestedLoopsJoin(true, true, lit.args, rel, joined);
  }

  lemma CandidateRows(c: Clause, lit: Literal)
    requires CandidateFits(lit, c)
    ensures forall row | row in Rows(GroupOf(c.body, lit.pred)) :: |row| == |lit.args|
  {
    var group := GroupOf(c.body, lit.pred);
    forall row | row in Rows(group)
      ensures |row| == |lit.args|
    {
      var l :| l in group && l.args == row;
    }
  }

  method TestBack(c: Clause, lit: Literal, group: seq<Literal>, k: nat, rel: seq<Row>, canonical: seq<Row>)
    returns (yes: bool)
    requires Testable(c) && CandidateFits(lit, c) && group == GroupOf(c.body, lit.pred) && k < |group|
    requires RowsFit(canonical, c.numVars) && rel == Rows(group)
    ensures yes <==> BackMatches(lit, group, k, c.numVars, RowSet(canonical))
  {
    hide *;
    var last := |group| - 1;
    var row := NumberUnbound(lit.args, c.numVars);
    var relWith := rel[..k] + rel[k + 1..] + [row];
    RelationIs(lit, group, k, c.numVars, rel, relWith);
    RelationWithFits(c, lit, k);
    var joined := JoinGroup(group, 0, last, -1, relWith, canonical, c.numVars, lit.pred);
    LastFits(group, lit.pred, relWith, c.numVars);
    RowsJoinable(group[last].args, joined, c.numVars);
    var unused: seq<Row>;
    yes, unused := NestedLoopsJoin(false, true, group[last].args, relWith, joined);
    BackMatchesIs(lit, group, k, c.numVars, RowSet(canonical), RowSet(joined));
  }

  lemma RelationIs(lit: Literal, group: seq<Literal>, k: nat, n: nat, rel: seq<Row>, relWith: seq<Row>)
    requires k < |group| && rel == Rows(group) && relWith == rel[..k] + rel[k + 1..] + [Freeze(lit.args, n)]
    ensures relWith == RelationWith(lit, group, k, n)
  {
  }

  lemma RowsJoinable(args: seq<int>, rows: seq<Row>, n: nat)
    requires RowsFit(rows, n) && ArgsWithin(args, n)
    ensures forall r | r in rows :: JoinableArgs(args, |r|) && ArgsWithin(args, |r|)
  {
  }

  lemma BackMatchesIs(lit: Literal, group: seq<Literal>, k: nat, n: nat, canonical: set<Row>, joined: set<Row>)
    requires k < |group| && joined == JoinGroupSet(group, 0, |group| - 1, -1, RelationWith(lit, group, k, n), canonical)
    ensures BackMatches(lit, group, k, n, canonical)
            <==> SomePairMatches(false, group[|group| - 1].args, RelationWith(lit, group, k, n), joined)
  {
  }

  /** With repeated variables assigned in time the first test decides whether the
      clause with literal k replaced maps into the clause. */
  lemma ForwardMeans(c: Clause, lit: Literal, k: nat, canonical: set<Row>)
    requires Testable(c) && CandidateFits(lit, c) && k < |GroupOf(c.body, lit.pred)| && AnchoredWithout(c, lit, k)
    requires HomSet(canonical, c.numVars, CanonicalLits(c, lit.pred), CanonicalDb(c, lit.pred))
    ensures ForwardMatches(lit, GroupOf(c.body, lit.pred), k, canonical) <==> MapsForward(c, lit, k)
  {
    hide *;
    var group, ls := GroupOf(c.body, lit.pred), CanonicalLits(c, lit.pred);
    var db, rel := CanonicalDb(c, lit.pred) + FactsOf(SetOf(group)), Rows(group);
    ForwardSetting(c, lit, k, canonical);
    AnchoredWithoutMeans(c, lit, k);
    JoinGroupSetIsHoms(group, 0, |group|, k, rel, canonical, c.numVars, lit.pred, ls, db);
    var joined := JoinGroupSet(group, 0, |group|, k, rel, canonical);
    BoundTestDecides(rel, joined, lit, c.numVars, ls + Part(group, 0, |group|, k), db);
    ForwardIs(c, lit, k, canonical);
  }

  lemma AnchoredWithoutMeans(c: Clause, lit: Literal, k: nat)
    requires AnchoredWithout(c, lit, k)
    ensures var group, ls := GroupOf(c.body, lit.pred), CanonicalLits(c, lit.pred);
            && (forall g | 0 <= g < |group| && g != k :: Anchored(group[g].args, ls + Part(group, 0, g, k)))
            && Anchored(lit.args, ls + Part(group, 0, |group|, k))
  {
    hide Anchored, CanonicalLits, GroupOf, Part;
  }

  lemma ForwardIs(c: Clause, lit: Literal, k: nat, canonical: set<Row>)
    requires k < |GroupOf(c.body, lit.pred)|
    ensures var group := GroupOf(c.body, lit.pred);
            && (ForwardMatches(lit, group, k, canonical)
                <==> SomePairMatches(true, lit.args, Rows(group),
                                     JoinGroupSet(group, 0, |group|, k, Rows(group), canonical)))
            && (MapsForward(c, lit, k)
                <==> HasHom(c.numVars + Unbound(lit.args),
                            CanonicalLits(c, lit.pred) + Part(group, 0, |group|, k)
                                + {Literal(lit.pred, Freeze(lit.args, c.numVars))},
                            CanonicalDb(c, lit.pred) + FactsOf(SetOf(group))))
  {
    hide HasHom, SomePairMatches, JoinGroupSet, GroupOf, Rows, CanonicalLits, CanonicalDb, Freeze, Unbound, Part,
        FactsOf;
  }

  lemma ForwardSetting(c: Clause, lit: Literal, k: nat, canonical: set<Row>)
    requires Testable(c) && CandidateFits(lit, c) && k < |GroupOf(c.body, lit.pred)|
    requires HomSet(canonical, c.numVars, CanonicalLits(c, lit.pred), CanonicalDb(c, lit.pred))
    ensures var group := GroupOf(c.body, lit.pred);
            var db := CanonicalDb(c, lit.pred) + FactsOf(SetOf(group));
            && RelationOf(Rows(group), lit.pred, db) && NonNegative(db)
            && HomSet(canonical, c.numVars, CanonicalLits(c, lit.pred), db)
            && FitsRelation(group, lit.pred, Rows(group), c.numVars)
            && JoinableArgs(lit.args, c.numVars)
            && forall l | l in CanonicalLits(c, lit.pred) + Part(group, 0, |group|, k) :: ArgsWithin(l.args, c.numVars)
  {
    var group := GroupOf(c.body, lit.pred);
    GroupFits(c, lit.pred);
    FactsOfGroup(group, lit.pred);
    FactsNonNegative(SetOf(group));
    CanonicalAvoids(c, lit.pred);
    CanonicalPlus(c, lit.pred, Rows(group), FactsOf(SetOf(group)), canonical);
  }

  /** The second test decides whether the clause maps back. */
  lemma BackMeans(c: Clause, lit: Literal, k: nat, canonical: set<Row>)
    requires Testable(c) && CandidateFits(lit, c) && k < |GroupOf(c.body, lit.pred)|
    requires HomSet(canonical, c.numVars, CanonicalLits(c, lit.pred), CanonicalDb(c, lit.pred))
    ensures BackMatches(lit, GroupOf(c.body, lit.pred), k, c.numVars, canonical) <==> MapsBack(c, lit, k)
  {
    hide *;
    var group, ls := GroupOf(c.body, lit.pred), CanonicalLits(c, lit.pred);
    var last, rel := |group| - 1, RelationWith(lit, group, k, c.numVars);
    var facts := FactsOf(Part(group, 0, |group|, k) + {Numbered(c, lit)});
    var db := CanonicalDb(c, lit.pred) + facts;
    RelationWithFits(c, lit, k);
    CanonicalPlus(c, lit.pred, rel, facts, canonical);
    GroupIsAnchored(c, lit.pred);
    EmptyPart(group, ls);
    AnchoredFrom(group, 0, ls);
    JoinGroupSetIsHoms(group, 0, last, -1, rel, canonical, c.numVars, lit.pred, ls, db);
    var joined := JoinGroupSet(group, 0, last, -1, rel, canonical);
    LastFits(group, lit.pred, rel, c.numVars);
    AnyTestDecides(rel, joined, group[last], c.numVars, ls + Part(group, 0, last, -1), db);
    BackMatchesIs(lit, group, k, c.numVars, canonical, joined);
    BackIs(c, lit, k);
  }

  lemma GroupIsAnchored(c: Clause, q: int)
    requires Testable(c)
    ensures GroupAnchored(GroupOf(c.body, q))
  {
    hide GroupAnchored, GroupOf;
  }

  lemma EmptyPart(group: seq<Literal>, ls: set<Literal>)
    ensures Part(group, 0, 0, -1) <= ls
  {
  }

  lemma BackIs(c: Clause, lit: Literal, k: nat)
    requires k < |GroupOf(c.body, lit.pred)|
    ensures var group := GroupOf(c.body, lit.pred);
            MapsBack(c, lit, k) <==>
              HasHom(c.numVars,
                     CanonicalLits(c, lit.pred) + Part(group, 0, |group| - 1, -1) + {group[|group| - 1]},
                     CanonicalDb(c, lit.pred) + FactsOf(Part(group, 0, |group|, k) + {Numbered(c, lit)}))
  {
    hide HasHom, GroupOf, CanonicalLits, CanonicalDb, FactsOf, Freeze;
    var group := GroupOf(c.body, lit.pred);
    assert CanonicalLits(c, lit.pred) + Part(group, 0, |group| - 1, -1) + {group[|group| - 1]}
        == CanonicalLits(c, lit.pred) + SetOf(group);
  }

  lemma LastFits(group: seq<Literal>, p: int, rel: seq<Row>, n: nat)
    requires group != [] && FitsRelation(group, p, rel, n)
    ensures var l := group[|group| - 1];
            l.pred == p && ArgsWithin(l.args, n) && forall row | row in rel :: |row| == |l.args|
  {
    assert group[|group| - 1] in group;
  }

  // Progress of the loop over the predicates, in whatever order they come.

  ghost function Reached(c: Clause, p: int, todo: set<int>): (ls: set<Literal>) {
    set l | l in c.body && l.pred != p && l.pred !in todo
  }

  ghost predicate JoinState(c: Clause, p: int, todo: set<int>, rows: seq<Row>, hasJoinedHead: bool) {
    var ls := Reached(c, p, todo);
    && (if ls == {} then rows == [] else rows != [] && RowsAre(rows, c.numVars, ls, CanonicalDb(c, p)))
    && (hasJoinedHead <==> exists l :: l in ls && l.pred == c.head.pred)
  }

  lemma NothingJoinedYet(c: Clause, p: int, groups: map<int, seq<Literal>>)
    requires IsGrouping(groups, c.body)
    ensures JoinState(c, p, groups.Keys, [], false)
  {
    assert forall l | l in c.body :: GroupOf(c.body, l.pred) != [];
    assert Reached(c, p, groups.Keys) == {};
  }

  lemma GroupFits(c: Clause, q: int)
    requires Testable(c)
    ensures FitsRelation(GroupOf(c.body, q), q, Rows(GroupOf(c.body, q)), c.numVars)
    ensures GroupOf(c.body, q) != [] ==> q >= 0
    ensures q == c.head.pred ==>
              FitsRelation(GroupOf(c.body, q), q, Rows(GroupOf(c.body, q)) + [c.head.args], c.numVars)
  {
    var group := GroupOf(c.body, q);
    forall l, row | l in group && row in Rows(group)
      ensures |l.args| == |row|
    {
      var m :| m in group && m.args == row;
    }
  }

  lemma NextReached(c: Clause, p: int, q: int, todo: set<int>)
    requires q in todo
    ensures Reached(c, p, todo - {q}) ==
              if q == p then Reached(c, p, todo) else Reached(c, p, todo) + SetOf(GroupOf(c.body, q))
    ensures forall l | l in Reached(c, p, todo) :: l.pred != q
    ensures Reached(c, p, todo) <= Others(c, p)
    ensures forall l | l in GroupOf(c.body, q) :: l.pred == q
  {
  }

  method AddPredicate(c: Clause, p: int, q: int, groups: map<int, seq<Literal>>, ghost todo: set<int>,
                      rows: seq<Row>, hasJoinedHead: bool) returns (rows': seq<Row>, hasJoinedHead': bool)
    requires Testable(c) && IsGrouping(groups, c.body) && q in groups && q in todo
    requires JoinState(c, p, todo, rows, hasJoinedHead)
    ensures JoinState(c, p, todo - {q}, rows', hasJoinedHead')
  {
    hide RowsAre, RelationOf, NonNegative, CanonicalDb, Testable, Reached, GroupOf, Rows, GroupAnchored;
    rows', hasJoinedHead' := rows, hasJoinedHead;
    NextReached(c, p, q, todo);
    if q != p {
      var group := groups[q];
      var rel := Rows(group);
      if !hasJoinedHead && c.head.pred == q {
        hasJoinedHead' := true;
        rel := rel + [c.head.args];
      }
      GroupFits(c, q);
      GroupIsAnchored(c, q);
      CanonicalDbIsGood(c, p);
      CanonicalRelation(c, p, q, rel);
      rows' := JoinPredicate(group, rel, rows, c.numVars, q, Reached(c, p, todo), CanonicalDb(c, p));
      CanonicalRowsExist(c, p, Reached(c, p, todo - {q}), rows');
    }
  }

  method FinishWithHead(c: Clause, p: int, rows: seq<Row>, hasJoinedHead: bool) returns (rows': seq<Row>)
    requires Testable(c) && JoinState(c, p, {}, rows, hasJoinedHead)
    ensures RowsAre(rows', c.numVars, CanonicalLits(c, p), CanonicalDb(c, p))
  {
    hide RowsAre, RelationOf, NonNegative, CanonicalDb;
    assert Reached(c, p, {}) == Others(c, p);
    rows' := rows;
    if !hasJoinedHead {
      CanonicalDbIsGood(c, p);
      rows' := JoinHead(c, rows, Others(c, p), CanonicalDb(c, p));
    }
    assert CanonicalLits(c, p) == if hasJoinedHead then Others(c, p) else Others(c, p) + {HeadLiteral(c)};
  }

  ghost predicate CacheFor(databases: map<int, seq<Row>>, c: Clause) {
    forall p | p in databases :: RowsAre(databases[p], c.numVars, CanonicalLits(c, p), CanonicalDb(c, p))
  }

  /** Among the homomorphisms is always the identity. */
  lemma IdentityIsThere(c: Clause, p: int, rows: seq<Row>)
    requires Testable(c) && RowsAre(rows, c.numVars, CanonicalLits(c, p), CanonicalDb(c, p))
    ensures IdentityRow(c.numVars, CanonicalLits(c, p)) in rows
  {
    forall l | l in CanonicalLits(c, p)
      ensures ArgsWithin(l.args, c.numVars) && Fact(l.pred, l.args) in CanonicalDb(c, p)
    {
      if l in Others(c, p) {
        assert Fact(l.pred, l.args) in FactsOf(Others(c, p));
      }
    }
    IdentityIsHom(c.numVars, CanonicalLits(c, p), CanonicalDb(c, p));
    assert IdentityRow(c.numVars, CanonicalLits(c, p)) in RowSet(rows);
  }

  lemma CacheStaysValid(databases: map<int, seq<Row>>, c: Clause, p: int, rows: seq<Row>)
    requires CacheFor(databases, c)
    requires RowsAre(rows, c.numVars, CanonicalLits(c, p), CanonicalDb(c, p))
    ensures CacheFor(databases[p := rows], c)
  {
  }

  class CandidateLiteralEnumerator {
    /** One canonical relation per excluded predicate, for the clause at hand. */
    var canonicalDatabases: map<int, seq<Row>>

    constructor ()
      ensures canonicalDatabases == map[]
    {
      canonicalDatabases := map[];
    }


    method CreateCanonicalDatabase(c: Clause, p: int, groups: map<int, seq<Literal>>) returns (rows: seq<Row>)
      requires Testable(c) && IsGrouping(groups, c.body) && CacheFor(canonicalDatabases, c) && p >= 0
      modifies this`canonicalDatabases
      ensures CacheFor(canonicalDatabases, c)
      ensures RowsAre(rows, c.numVars, CanonicalLits(c, p), CanonicalDb(c, p))
      ensures IdentityRow(c.numVars, CanonicalLits(c, p)) in rows
      ensures canonicalDatabases == old(canonicalDatabases)[p := rows]
    {
      hide *;
      rows := [];
      var hasJoinedHead := false;
      var todo: set<int> := groups.Keys;
      NothingJoinedYet(c, p, groups);
      while todo != {}
        invariant canonicalDatabases == old(canonicalDatabases)
        invariant todo <= groups.Keys
        invariant JoinState(c, p, todo, rows, hasJoinedHead)
      {
        ghost var some := Member(todo);
        var q :| q in todo;
        rows, hasJoinedHead := AddPredicate(c, p, q, groups, todo, rows, hasJoinedHead);
        todo := todo - {q};
      }
      rows := FinishWithHead(c, p, rows, hasJoinedHead);
      CacheStaysValid(canonicalDatabases, c, p, rows);
      IdentityIsThere(c, p, rows);
      canonicalDatabases := canonicalDatabases[p := rows];
    }

    /** Whether the candidate is a replaceable duplicate of some body literal. The
        verdict is the one intended if the candidate repeats no variable that is
        not assigned when it is joined. */
    method CheckReplaceableDuplicate(c: Clause, lit: Literal, groups: map<int, seq<Literal>>)
      returns (dup: bool, ghost homs: set<Row>)
      requires Testable(c) && CandidateFits(lit, c) && IsGrouping(groups, c.body) && CacheFor(canonicalDatabases, c)
      requires lit.pred in groups
      modifies this`canonicalDatabases
      ensures CacheFor(canonicalDatabases, c)
      ensures HomSet(homs, c.numVars, CanonicalLits(c, lit.pred), CanonicalDb(c, lit.pred))
              && (dup <==> Verdict(c, lit, homs))
      ensures CandidateAnchored(c, lit) ==> (dup <==> SomeMutual(c, lit))
      ensures CandidateAnchored(c, lit) && !HeadAmong(c, lit.pred) ==> (dup <==> IsReplaceableDuplicate(c, lit))
    {
      hide *;
      var p, group := lit.pred, groups[lit.pred];
      CandidateGroup(c, lit, groups);
      if p !in canonicalDatabases {
        var created := CreateCanonicalDatabase(c, p, groups);
      }
      var canonical := canonicalDatabases[p];
      homs := RowSet(canonical);
      CachedRows(canonicalDatabases, c, p);
      var rel := Rows(group);
      VerdictMeansEquivalent(c, lit, homs);
      dup := false;
      for k := 0 to |group|
        invariant CacheFor(canonicalDatabases, c)
        invariant forall m | 0 <= m < k ::
                    !(ForwardMatches(lit, group, m, homs) && BackMatches(lit, group, m, c.numVars, homs))
      {
        var forward := TestForward(c, lit, group, k, rel, canonical);
        if forward {
          var back := TestBack(c, lit, group, k, rel, canonical);
          if back {
            VerdictAt(c, lit, k, homs);
            return true, homs;
          }
        }
      }
      VerdictNowhere(c, lit, homs);
    }
  }

  lemma CandidateGroup(c: Clause, lit: Literal, groups: map<int, seq<Literal>>)
    requires CandidateFits(lit, c) && IsGrouping(groups, c.body) && lit.pred in groups
    ensures groups[lit.pred] == GroupOf(c.body, lit.pred) && lit.pred >= 0
  {
  }

  lemma CachedRows(databases: map<int, seq<Row>>, c: Clause, p: int)
    requires CacheFor(databases, c) && p in databases
    ensures RowsFit(databases[p], c.numVars)
    ensures HomSet(RowSet(databases[p]), c.numVars, CanonicalLits(c, p), CanonicalDb(c, p))
  {
    RowsHaveSize(databases[p], c.numVars, CanonicalLits(c, p), CanonicalDb(c, p));
  }

  lemma VerdictAt(c: Clause, lit: Literal, k: nat, homs: set<Row>)
    requires k < |GroupOf(c.body, lit.pred)|
    requires ForwardMatches(lit, GroupOf(c.body, lit.pred), k, homs)
    requires BackMatches(lit, GroupOf(c.body, lit.pred), k, c.numVars, homs)
    ensures Verdict(c, lit, homs)
  {
    hide ForwardMatches, BackMatches;
  }

  lemma VerdictNowhere(c: Clause, lit: Literal, homs: set<Row>)
    requires forall k | 0 <= k < |GroupOf(c.body, lit.pred)| ::
               !(ForwardMatches(lit, GroupOf(c.body, lit.pred), k, homs)
                 && BackMatches(lit, GroupOf(c.body, lit.pred), k, c.numVars, homs))
    ensures !Verdict(c, lit, homs)
  {
    hide ForwardMatches, BackMatches;
  }

  method NumberUnbound(args: seq<int>, start: nat) returns (row: Row)
    ensures row == Freeze(args, start)
  {
    row := [];
    var id := start;
    assert args[0..] == args;
    for i := 0 to |args|
      invariant id >= 0
      invariant row + Freeze(args[i..], id) == Freeze(args, start)
    {
      assert args[i..][0] == args[i] && args[i..][1..] == args[i + 1..];
      if args[i] >= 0 {
        row := row + [args[i]];
      } else {
        row := row + [id];
        id := id + 1;
      }
    }
  }

  lemma CanonicalDbIsGood(c: Clause, p: int)
    requires Testable(c)
    ensures NonNegative(CanonicalDb(c, p)) && RelationOf([c.head.args], HEAD, CanonicalDb(c, p))
  {
    var db := CanonicalDb(c, p);
    forall f, i | f in db && 0 <= i < |f.row|
      ensures f.row[i] >= 0
    {
      if f.row != c.head.args {
        var l :| l in Others(c, p) && f == Fact(l.pred, l.args);
        assert l in c.body;
      }
    }
  }

  lemma CanonicalRelation(c: Clause, p: int, q: int, rel: seq<Row>)
    requires Testable(c) && q != p && q >= 0
    requires GroupOf(c.body, q) != []
    requires rel == Rows(GroupOf(c.body, q)) + (if q == c.head.pred then [c.head.args] else [])
    ensures RelationOf(rel, q, CanonicalDb(c, p))
  {
    var group := GroupOf(c.body, q);
    var db := CanonicalDb(c, p);
    if q == c.head.pred {
      assert group[0] in Others(c, p);
      assert HeadAmong(c, p);
    }
    forall row
      ensures row in rel <==> Fact(q, row) in db
    {
      if row in Rows(group) {
        var l :| l in group && l.args == row;
        assert l in Others(c, p);
      }
      if Fact(q, row) in FactsOf(Others(c, p)) {
        var l :| l in Others(c, p) && Fact(l.pred, l.args) == Fact(q, row);
        assert l in group;
      }
    }
  }

  lemma CanonicalRowsExist(c: Clause, p: int, ls: set<Literal>, rows: seq<Row>)
    requires Testable(c) && ls <= Others(c, p)
    requires RowsAre(rows, c.numVars, ls, CanonicalDb(c, p))
    ensures rows != []
  {
    forall l | l in ls
      ensures ArgsWithin(l.args, c.numVars) && Fact(l.pred, l.args) in CanonicalDb(c, p)
    {
      assert l in Others(c, p) && l in c.body;
    }
    IdentityIsHom(c.numVars, ls, CanonicalDb(c, p));
    assert IdentityRow(c.numVars, ls) in RowSet(rows);
  }

  lemma HeadRowIsOnlyHom(c: Clause, row: Row, db: Database)
    requires Testable(c) && |row| == c.numVars
    requires forall v | 0 <= v < c.numVars :: row[v] == if v in c.head.args then v else -1
    requires RelationOf([c.head.args], HEAD, db)
    ensures RowsAre([row], c.numVars, {HeadLiteral(c)}, db)
  {
    var head := HeadLiteral(c);
    forall v
      ensures Occurs(v, {head}) <==> v in c.head.args
    {
      if v in c.head.args { assert head in {head}; }
    }
    assert Image(c.head.args, row) == c.head.args;
    forall r | PartialHom(r, c.numVars, {head}, db)
      ensures r == row
    {
      assert Satisfies(r, head, db);
      assert Image(c.head.args, r) in [c.head.args];
      forall v | 0 <= v < c.numVars
        ensures r[v] == row[v]
      {
        if v in c.head.args {
          var i :| 0 <= i < |c.head.args| && c.head.args[i] == v;
          assert Image(c.head.args, r)[i] == v;
        }
      }
    }
  }

  lemma FactsOfGroup(group: seq<Literal>, p: int)
    requires forall l | l in group :: l.pred == p
    ensures RelationOf(Rows(group), p, FactsOf(SetOf(group)))
  {
    forall row
      ensures row in Rows(group) <==> Fact(p, row) in FactsOf(SetOf(group))
    {
      if row in Rows(group) {
        var l :| l in group && l.args == row;
        assert l in SetOf(group);
      }
      if Fact(p, row) in FactsOf(SetOf(group)) {
        var l :| l in SetOf(group) && Fact(l.pred, l.args) == Fact(p, row);
        assert l in group;
      }
    }
  }

  lemma CanonicalAvoids(c: Clause, p: int)
    requires Testable(c) && p >= 0
    ensures forall l | l in CanonicalLits(c, p) :: l.pred != p && ArgsWithin(l.args, c.numVars)
    ensures forall f | f in CanonicalDb(c, p) :: f.pred != p
  {
  }

  /** The canonical relation and the checked relation do not interfere. */
  lemma CanonicalPlus(c: Clause, p: int, rel: seq<Row>, facts: Database, canonical: set<Row>)
    requires Testable(c) && p >= 0
    requires RelationOf(rel, p, facts) && NonNegative(facts) && forall f | f in facts :: f.pred == p
    requires HomSet(canonical, c.numVars, CanonicalLits(c, p), CanonicalDb(c, p))
    ensures var db := CanonicalDb(c, p) + facts;
            RelationOf(rel, p, db) && NonNegative(db) && HomSet(canonical, c.numVars, CanonicalLits(c, p), db)
  {
    CanonicalAvoids(c, p);
    CanonicalDbIsGood(c, p);
    RelevantFactsOnly(canonical, c.numVars, CanonicalLits(c, p), CanonicalDb(c, p), CanonicalDb(c, p) + facts);
  }

  lemma FactsNonNegative(ls: set<Literal>)
    requires forall l | l in ls :: forall i | 0 <= i < |l.args| :: l.args[i] >= 0
    ensures NonNegative(FactsOf(ls))
  {
  }

  /** The relation with literal k replaced fits the predicate's literals. */
  lemma RelationWithFits(c: Clause, lit: Literal, k: nat)
    requires Testable(c) && CandidateFits(lit, c) && k < |GroupOf(c.body, lit.pred)|
    ensures var group := GroupOf(c.body, lit.pred);
            var rel := RelationWith(lit, group, k, c.numVars);
            var facts := FactsOf(Part(group, 0, |group|, k) + {Numbered(c, lit)});
            && RelationOf(rel, lit.pred, facts) && NonNegative(facts) && (forall f | f in facts :: f.pred == lit.pred)
            && lit.pred >= 0 && FitsRelation(group, lit.pred, rel, c.numVars)
  {
    var group := GroupOf(c.body, lit.pred);
    FreezeShape(lit.args, c.numVars);
    GroupFits(c, lit.pred);
    RelationWithFacts(lit, group, k, c.numVars);
    var all := Part(group, 0, |group|, k) + {Literal(lit.pred, Freeze(lit.args, c.numVars))};
    forall l | l in all
      ensures forall i | 0 <= i < |l.args| :: l.args[i] >= 0
    {
      assert l == Numbered(c, lit) || l in group;
    }
    FactsNonNegative(all);
    RowsAreAsLong(c, lit, k);
    hide Testable, GroupOf, Freeze, RelationWith;
  }

  lemma RowsAreAsLong(c: Clause, lit: Literal, k: nat)
    requires Testable(c) && CandidateFits(lit, c) && k < |GroupOf(c.body, lit.pred)|
    ensures var group := GroupOf(c.body, lit.pred);
            forall l, row | l in group && row in RelationWith(lit, group, k, c.numVars) :: |l.args| == |row|
  {
    var group := GroupOf(c.body, lit.pred);
    FreezeShape(lit.args, c.numVars);
    GroupFits(c, lit.pred);
    hide Testable, GroupOf, Freeze;
    forall l, row | l in group && row in RelationWith(lit, group, k, c.numVars)
      ensures |l.args| == |row|
    {
      assert row in Rows(group) || row == Freeze(lit.args, c.numVars);
    }
  }

  lemma RelationWithFacts(lit: Literal, group: seq<Literal>, k: nat, n: nat)
    requires k < |group| && forall l | l in group :: l.pred == lit.pred
    ensures var facts := FactsOf(Part(group, 0, |group|, k) + {Literal(lit.pred, Freeze(lit.args, n))});
            RelationOf(RelationWith(lit, group, k, n), lit.pred, facts) && forall f | f in facts :: f.pred == lit.pred
  {
    hide Freeze;
    var numbered, rest := Literal(lit.pred, Freeze(lit.args, n)), Part(group, 0, |group|, k);
    forall l | l in rest
      ensures l in group
    {
    }
    forall row
      ensures row in RelationWith(lit, group, k, n) <==> Fact(lit.pred, row) in FactsOf(rest + {numbered})
    {
      RestRows(group, k, row);
      if Fact(lit.pred, row) in FactsOf(rest + {numbered}) {
        var l :| l in rest + {numbered} && Fact(l.pred, l.args) == Fact(lit.pred, row);
      }
    }
  }

  lemma RestRows(group: seq<Literal>, k: nat, row: Row)
    requires k < |group| == |Rows(group)|
    ensures row in Rows(group)[..k] + Rows(group)[k + 1..] <==> exists l ::
              l in Part(group, 0, |group|, k) && l.args == row
  {
  }


  /** The body literals of predicate p at positions other than b. */
  function Kept(body: seq<Literal>, p: int, b: nat): (ls: set<Literal>) {
    set i | 0 <= i < |body| && i != b && body[i].pred == p :: body[i]
  }

  /** Leaving out position b of the body and position k of the group leaves the
      same literals of the predicate. */
  ghost predicate Aligned(body: seq<Literal>, p: int, b: nat, k: nat)
    requires b < |body| && k < |GroupOf(body, p)|
  {
    body[b].pred == p && Kept(body, p, b) == Part(GroupOf(body, p), 0, |GroupOf(body, p)|, k)
  }

  lemma PartSnoc(g: seq<Literal>, x: Literal, k: nat)
    requires k <= |g|
    ensures Part(g + [x], 0, |g| + 1, k) == if k == |g| then SetOf(g) else Part(g, 0, |g|, k) + {x}
  {
    var h := g + [x];
    assert forall i | 0 <= i < |g| :: h[i] == g[i];
    assert h[|g|] == x;
    if k == |g| {
      forall l | l in SetOf(g)
        ensures l in Part(h, 0, |g| + 1, k)
      {
        var i :| 0 <= i < |g| && g[i] == l;
        assert h[i] == l;
      }
    } else {
      forall l | l in Part(g, 0, |g|, k) + {x}
        ensures l in Part(h, 0, |g| + 1, k)
      {
        if l != x {
          var i :| 0 <= i < |g| && i != k && g[i] == l;
          assert h[i] == l;
        }
      }
    }
  }

  lemma KeptSnoc(body: seq<Literal>, x: Literal, p: int, b: nat)
    requires b <= |body|
    ensures Kept(body + [x], p, b) ==
              if b == |body| then SetOf(GroupOf(body, p))
              else if x.pred == p then Kept(body, p, b) + {x} else Kept(body, p, b)
  {
    var h := body + [x];
    assert forall i | 0 <= i < |body| :: h[i] == body[i];
    assert h[|body|] == x;
    if b == |body| {
      forall l | l in GroupOf(body, p)
        ensures l in Kept(h, p, b)
      {
        var i :| 0 <= i < |body| && body[i] == l;
        assert h[i] == l;
      }
    } else {
      forall l | l in Kept(body, p, b)
        ensures l in Kept(h, p, b)
      {
        var i :| 0 <= i < |body| && i != b && body[i].pred == p && body[i] == l;
        assert h[i] == l;
      }
    }
  }

  lemma AlignedSnoc(body: seq<Literal>, p: int, b: nat, k: nat)
    requires body != []
    requires var init := body[..|body| - 1];
             if b == |init| then body[b].pred == p && k == |GroupOf(init, p)|
             else b < |init| && k < |GroupOf(init, p)| && Aligned(init, p, b, k)
    ensures b < |body| && k < |GroupOf(body, p)| && Aligned(body, p, b, k)
  {
    var init, x := body[..|body| - 1], body[|body| - 1];
    assert body == init + [x];
    KeptSnoc(init, x, p, b);
    if x.pred == p {
      PartSnoc(GroupOf(init, p), x, k);
    }
  }

  lemma {:induction false} GroupIndexOf(body: seq<Literal>, p: int, b: nat) returns (k: nat)
    requires b < |body| && body[b].pred == p
    ensures k < |GroupOf(body, p)| && Aligned(body, p, b, k)
  {
    var init := body[..|body| - 1];
    if b == |init| {
      k := |GroupOf(init, p)|;
    } else {
      k := GroupIndexOf(init, p, b);
    }
    AlignedSnoc(body, p, b, k);
  }

  lemma {:induction false} BodyIndexOf(body: seq<Literal>, p: int, k: nat) returns (b: nat)
    requires k < |GroupOf(body, p)|
    ensures b < |body| && Aligned(body, p, b, k)
  {
    var init := body[..|body| - 1];
    if k == |GroupOf(init, p)| {
      b := |init|;
    } else {
      b := BodyIndexOf(init, p, k);
    }
    AlignedSnoc(body, p, b, k);
  }

  lemma WithoutOne(c: Clause, p: int, b: nat)
    requires b < |c.body| && c.body[b].pred == p
    ensures SetOf(c.body[..b] + c.body[b + 1..]) == Others(c, p) + Kept(c.body, p, b)
  {
    var rest := c.body[..b] + c.body[b + 1..];
    forall l | l in Others(c, p) + Kept(c.body, p, b)
      ensures l in rest
    {
      var i :| 0 <= i < |c.body| && i != b && c.body[i] == l;
      assert l == if i < b then rest[i] else rest[i - 1];
    }
    forall l | l in rest
      ensures l in Others(c, p) + Kept(c.body, p, b)
    {
      var m :| 0 <= m < |rest| && rest[m] == l;
      assert l == if m < b then c.body[m] else c.body[m + 1];
    }
  }

  lemma ReplacedClause(c: Clause, lit: Literal, b: nat)
    requires Testable(c) && CandidateFits(lit, c)
    requires b < |c.body| && c.body[b].pred == lit.pred
    ensures var c' := Replace(c, b, lit);
            && WellFormed(c') && NoHeadSymbol(c')
            && SetOf(c'.body) == Others(c, lit.pred) + Kept(c.body, lit.pred, b) + {Numbered(c, lit)}
  {
    FreezeShape(lit.args, c.numVars);
    WithoutOne(c, lit.pred, b);
    var rest := c.body[..b] + c.body[b + 1..];
    assert forall l | l in rest :: l in SetOf(rest) && l in c.body;
    assert forall l :: l in Replace(c, b, lit).body <==> l in rest || l == Numbered(c, lit);
  }

  lemma MapsMeanHomomorphisms(c: Clause, lit: Literal, b: nat, k: nat)
    requires Testable(c) && CandidateFits(lit, c) && !HeadAmong(c, lit.pred)
    requires b < |c.body| && k < |GroupOf(c.body, lit.pred)| && Aligned(c.body, lit.pred, b, k)
    ensures MapsForward(c, lit, k) && MapsBack(c, lit, k) <==> ReplaceableAt(c, lit, b)
  {
    hide HasHom, Homomorphism, Equivalent, GroupOf, Freeze, Unbound, Kept;
    var c' := Replace(c, b, lit);
    var group := GroupOf(c.body, lit.pred);
    var rest := Part(group, 0, |group|, k);
    ReplacedClause(c, lit, b);
    assert HomLits(c') == SetOf(c'.body) + {HeadLiteral(c)};
    assert HomLits(c') == CanonicalLits(c, lit.pred) + rest + {Numbered(c, lit)};
    assert HomLits(c) == CanonicalLits(c, lit.pred) + SetOf(group);
    assert HomDb(c) == CanonicalDb(c, lit.pred) + FactsOf(SetOf(group));
    assert HomDb(c') == CanonicalDb(c, lit.pred) + FactsOf(rest + {Numbered(c, lit)});
    PartialIffTotal(c', c);
    PartialIffTotal(c, c');
    EquivalenceIsMutualHomomorphism(c, c');
  }

  /** The verdict for a candidate whose repeated variables are assigned in time. */
  lemma VerdictMeansEquivalent(c: Clause, lit: Literal, homs: set<Row>)
    requires Testable(c) && CandidateFits(lit, c)
    requires HomSet(homs, c.numVars, CanonicalLits(c, lit.pred), CanonicalDb(c, lit.pred))
    ensures CandidateAnchored(c, lit) ==> (Verdict(c, lit, homs) <==> SomeMutual(c, lit))
    ensures !HeadAmong(c, lit.pred) ==> (SomeMutual(c, lit) <==> IsReplaceableDuplicate(c, lit))
  {
    hide *;
    if CandidateAnchored(c, lit) {
      VerdictMeansMutual(c, lit, homs);
    }
    if !HeadAmong(c, lit.pred) {
      MutualMeansEquivalent(c, lit);
    }
  }

  lemma VerdictMeansMutual(c: Clause, lit: Literal, homs: set<Row>)
    requires Testable(c) && CandidateFits(lit, c) && CandidateAnchored(c, lit)
    requires HomSet(homs, c.numVars, CanonicalLits(c, lit.pred), CanonicalDb(c, lit.pred))
    ensures Verdict(c, lit, homs) <==> SomeMutual(c, lit)
  {
    var group := GroupOf(c.body, lit.pred);
    hide HomSet, Testable, CandidateFits, AnchoredWithout, ForwardMatches, BackMatches, MapsForward, MapsBack, GroupOf;
    forall k | 0 <= k < |group|
      ensures ForwardMatches(lit, group, k, homs) <==> MapsForward(c, lit, k)
      ensures BackMatches(lit, group, k, c.numVars, homs) <==> MapsBack(c, lit, k)
    {
      ForwardMeans(c, lit, k, homs);
      BackMeans(c, lit, k, homs);
    }
  }

  lemma MutualMeansEquivalent(c: Clause, lit: Literal)
    requires Testable(c) && CandidateFits(lit, c) && !HeadAmong(c, lit.pred)
    ensures SomeMutual(c, lit) <==> IsReplaceableDuplicate(c, lit)
  {
    hide Testable, CandidateFits, HeadAmong, MapsForward, MapsBack, ReplaceableAt, GroupOf, Aligned;
    if SomeMutual(c, lit) {
      var k :| 0 <= k < |GroupOf(c.body, lit.pred)| && MapsForward(c, lit, k) && MapsBack(c, lit, k);
      var b := BodyIndexOf(c.body, lit.pred, k);
      MapsMeanHomomorphisms(c, lit, b, k);
    }
    if IsReplaceableDuplicate(c, lit) {
      var b :| 0 <= b < |c.body| && ReplaceableAt(c, lit, b);
      ReplacedPred(c, lit, b);
      var k := GroupIndexOf(c.body, lit.pred, b);
      MapsMeanHomomorphisms(c, lit, b, k);
    }
  }

  lemma ReplacedPred(c: Clause, lit: Literal, b: nat)
    requires b < |c.body| && ReplaceableAt(c, lit, b)
    ensures c.body[b].pred == lit.pred
  {
    hide Equivalent;
  }
}
