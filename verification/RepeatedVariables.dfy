/** A run of the replaceable-duplicate test that goes wrong: the candidate repeats
    a variable that no literal joined before it assigns
    (learner/CandidateLiteralEnumerator.cpp). */
module RepeatedVariables {
  import opened Query
  import opened CanonicalJoin
  import opened DuplicateCheck

  /** h(0) :- r(0,1), p(1,2,3). */
  const CHAIN := Clause(Literal(9, [0]), [Literal(1, [0, 1]), Literal(2, [1, 2, 3])], 4)

  /** p(1,2,2): the variable 2 is not assigned yet when p is joined. */
  const REPEATING := Literal(2, [1, 2, 2])

  lemma GroupsOfChain()
    ensures GroupOf(CHAIN.body, 2) == [Literal(2, [1, 2, 3])]
    ensures GroupOf(CHAIN.body, 1) == [Literal(1, [0, 1])]
    ensures forall q | q != 1 && q != 2 :: GroupOf(CHAIN.body, q) == []
  {
    var r, p := Literal(1, [0, 1]), Literal(2, [1, 2, 3]);
    assert CHAIN.body[..1] == [r] && [r][..0] == [];
  }

  lemma SingleIsAnchored(l: Literal)
    requires Distinct(l.args)
    ensures GroupAnchored([l])
  {
  }

  lemma ChainGroupsAnchored()
    ensures forall q :: GroupAnchored(GroupOf(CHAIN.body, q))
  {
    hide GroupOf, GroupAnchored;
    GroupsOfChain();
    EmptyIsAnchored();
    SingleIsAnchored(Literal(1, [0, 1]));
    SingleIsAnchored(Literal(2, [1, 2, 3]));
  }

  lemma EmptyIsAnchored()
    ensures GroupAnchored([])
  {
  }

  lemma ChainIsTestable()
    ensures Testable(CHAIN) && CandidateFits(REPEATING, CHAIN)
  {
    ChainGroupsAnchored();
    hide GroupOf, GroupAnchored;
    assert forall l | l in CHAIN.body :: l == Literal(1, [0, 1]) || l == Literal(2, [1, 2, 3]);
  }

  /** The only homomorphism of the other literals that matters: h(0), r(0,1). */
  lemma CanonicalRowOfChain()
    ensures PartialHom([0, 1, -1, -1], 4, CanonicalLits(CHAIN, 2), CanonicalDb(CHAIN, 2))
  {
    var r, head, row := Literal(1, [0, 1]), Literal(HEAD, [0]), [0, 1, -1, -1];
    assert Others(CHAIN, 2) == {r} by { assert CHAIN.body == [r, Literal(2, [1, 2, 3])]; }
    assert Fact(1, [0, 1]) in FactsOf({r});
    assert Image([0, 1], row) == [0, 1] && Image([0], row) == [0];
    assert forall v :: Occurs(v, {r, head}) <==> v == 0 || v == 1 by {
      assert 0 in r.args && 1 in r.args && r in {r, head};
    }
  }

  /** Whatever order the predicates are joined in, the test reports the candidate
      as a duplicate. */
  lemma RepeatedVariableIsReported(homs: set<Row>)
    requires HomSet(homs, 4, CanonicalLits(CHAIN, 2), CanonicalDb(CHAIN, 2))
    ensures Verdict(CHAIN, REPEATING, homs)
  {
    CanonicalRowOfChain();
    GroupsOfChain();
    assert [0, 1, -1, -1] in homs;
    hide HomSet, PartialHom, CanonicalLits, CanonicalDb, GroupOf;
    ChainForward(homs);
    ChainBack(homs);
    hide ForwardMatches, BackMatches;
    assert Verdict(CHAIN, REPEATING, homs);
  }

  /** p(1,2,2) matches the row of p(1,2,3): nothing compares the two values of 2. */
  lemma ChainForward(homs: set<Row>)
    requires [0, 1, -1, -1] in homs
    ensures ForwardMatches(REPEATING, [Literal(2, [1, 2, 3])], 0, homs)
  {
    var group, row := [Literal(2, [1, 2, 3])], [0, 1, -1, -1];
    assert Rows(group) == [[1, 2, 3]];
    assert JoinGroupSet(group, 0, 1, 0, Rows(group), homs) == homs;
    assert AgreesAt(true, [1, 2, 2], [1, 2, 3], row, 0) && AgreesAt(true, [1, 2, 2], [1, 2, 3], row, 1)
           && AgreesAt(true, [1, 2, 2], [1, 2, 3], row, 2);
    assert Compatible(true, [1, 2, 2], [1, 2, 3], row);
    assert [1, 2, 3] in Rows(group);
  }

  lemma ChainBack(homs: set<Row>)
    requires [0, 1, -1, -1] in homs
    ensures BackMatches(REPEATING, [Literal(2, [1, 2, 3])], 0, 4, homs)
  {
    var group, row := [Literal(2, [1, 2, 3])], [0, 1, -1, -1];
    FrozenCandidate();
    assert Rows(group) == [[1, 2, 3]];
    var rel := RelationWith(REPEATING, group, 0, 4);
    assert rel == [[1, 2, 2]];
    assert AgreesAt(false, [1, 2, 3], [1, 2, 2], row, 0) && AgreesAt(false, [1, 2, 3], [1, 2, 2], row, 1)
           && AgreesAt(false, [1, 2, 3], [1, 2, 2], row, 2);
    assert Compatible(false, [1, 2, 3], [1, 2, 2], row);
    assert JoinGroupSet(group, 0, 0, -1, rel, homs) == homs;
    assert [1, 2, 2] in rel;
  }

  ghost predicate FreezeOf() {
    Freeze([1, 2, 2], 4) == [1, 2, 2] && Unbound([1, 2, 2]) == 0
  }

  lemma FrozenCandidate()
    ensures FreezeOf()
  {
    assert [1, 2, 2][1..] == [2, 2] && [2, 2][1..] == [2] && [2][1..] == [];
  }

  const REPLACED := Clause(Literal(9, [0]), [Literal(1, [0, 1]), REPEATING], 4)

  lemma ChainReplaced()
    ensures Replace(CHAIN, 1, REPEATING) == REPLACED && WellFormed(REPLACED)
  {
    FrozenCandidate();
    assert CHAIN.body[..1] + CHAIN.body[2..] == [Literal(1, [0, 1])];
    assert forall l | l in REPLACED.body :: l == Literal(1, [0, 1]) || l == REPEATING;
  }

  lemma ChainAnswers()
    ensures WellFormed(CHAIN) && Derives(CHAIN, Frozen(CHAIN), [0])
  {
    var id := [0, 1, 2, 3];
    assert Image([0], id) == [0] && Image([0, 1], id) == [0, 1] && Image([1, 2, 3], id) == [1, 2, 3];
    assert Witnesses(CHAIN, Frozen(CHAIN), [0], id);
  }

  lemma NoRepeatingFact(sigma: seq<int>)
    ensures !Satisfies(sigma, REPEATING, Frozen(CHAIN))
  {
    if ArgsWithin([1, 2, 2], |sigma|) {
      var image := Image([1, 2, 2], sigma);
      assert REPEATING.args[1] == REPEATING.args[2] == 2;
      assert image[1] == sigma[2] == image[2];
      assert forall l | l in CHAIN.body :: l.args == [0, 1] || l.args == [1, 2, 3];
      assert [1, 2, 3][1] != [1, 2, 3][2];
    }
  }

  /** Yet replacing p(1,2,3), the only literal of its predicate, changes the answers. */
  lemma RepeatedVariableIsNoDuplicate()
    ensures !IsReplaceableDuplicate(CHAIN, REPEATING)
  {
    ChainReplaced();
    ChainAnswers();
    hide Derives, Equivalent, WellFormed, Replace;
    NoReplacedAnswer();
    NotEquivalent(CHAIN, REPLACED, Frozen(CHAIN), [0]);
    assert CHAIN.body[0].pred == 1;
    forall b | 0 <= b < |CHAIN.body|
      ensures !ReplaceableAt(CHAIN, REPEATING, b)
    {
      if b == 1 {
        assert Replace(CHAIN, b, REPEATING) == REPLACED;
      }
    }
  }

  lemma NoReplacedAnswer()
    ensures WellFormed(REPLACED) && !Derives(REPLACED, Frozen(CHAIN), [0])
  {
    ChainReplaced();
    assert REPLACED.body[1] == REPEATING;
    forall sigma
      ensures !Witnesses(REPLACED, Frozen(CHAIN), [0], sigma)
    {
      NoRepeatingFact(sigma);
    }
  }

  lemma NotEquivalent(c1: Clause, c2: Clause, db: Database, t: seq<int>)
    requires WellFormed(c1) && WellFormed(c2)
    requires Derives(c1, db, t) && !Derives(c2, db, t)
    ensures !Equivalent(c1, c2)
  {
  }

  /** The run: the candidate is reported although it is no duplicate. */
  method ReportRepeatedVariable() returns (reported: bool)
    ensures reported && !IsReplaceableDuplicate(CHAIN, REPEATING)
  {
    ChainIsTestable();
    RepeatedVariableIsNoDuplicate();
    hide Testable, CandidateFits, IsReplaceableDuplicate, CacheFor, CanonicalLits, CanonicalDb, HomSet, Verdict,
        GroupOf, IsGrouping,
      CandidateAnchored, SomeMutual, HeadAmong;
    var enumerator := new CandidateLiteralEnumerator();
    var groups := GroupByPredicate(CHAIN.body);
    GroupIsThere(groups);
    NothingCached(enumerator.canonicalDatabases);
    ghost var homs: set<Row>;
    reported, homs := enumerator.CheckReplaceableDuplicate(CHAIN, REPEATING, groups);
    RepeatedVariableIsReported(homs);
  }

  lemma GroupIsThere(groups: map<int, seq<Literal>>)
    requires IsGrouping(groups, CHAIN.body)
    ensures REPEATING.pred in groups
  {
    GroupsOfChain();
    hide GroupOf;
  }

  lemma NothingCached(databases: map<int, seq<Row>>)
    requires databases == map[]
    ensures CacheFor(databases, CHAIN)
  {
  }
}
