/** The first loop of GeneratePredicateEvaluationPlan
    (learner/CandidateLiteralEvaluator.cpp): numbering the atoms of a join group
    and setting up the nodes that the merging starts from. */
module PlanAtoms {
  import opened EvaluationPlan
  import opened Bindings
  import opened Collections

  /** The equalities a literal asks for besides its join key, among its first n columns. */
  function BoundAtoms(vars: Variables, joinKey: nat, n: nat): (atoms: set<FilterAtom>)
    requires n <= |vars|
  {
    set v | 0 <= v < n && v != joinKey && vars[v] >= 0 :: FilterAtom(v, vars[v])
  }

  /** The literals of one join group: one predicate, one join key column that
      joins with one variable, no literal twice. */
  ghost predicate JoinGroup(literals: seq<Variables>, joinKey: nat) {
    && literals != []
    && (forall l | 0 <= l < |literals| ::
          |literals[l]| == |literals[0]| && joinKey < |literals[l]|
          && literals[l][joinKey] == literals[0][joinKey] >= 0
          && forall v | 0 <= v < |literals[l]| :: literals[l][v] >= -1)
    && forall l, m | 0 <= l < m < |literals| :: literals[l] != literals[m]
  }

  /** Atoms by number, their numbers, and for every atom the literals that have it. */
  datatype Atoms = Atoms(list: seq<FilterAtom>, ids: map<FilterAtom, nat>, literalIds: seq<set<nat>>) {

    ghost predicate Valid() {
      && |literalIds| == |list|
      && (forall a | a in ids :: ids[a] < |list| && list[ids[a]] == a)
      && forall i | 0 <= i < |list| :: list[i] in ids && ids[list[i]] == i
    }

    /** The numbers of a literal's atoms. */
    ghost function Numbers(wanted: set<FilterAtom>): (ns: set<nat>) {
      set i | 0 <= i < |list| && list[i] in wanted
    }

    ghost predicate Knows(wanted: set<FilterAtom>) {
      forall a | a in wanted :: a in ids
    }
  }

  /** Numbers that were given out stay. */
  ghost predicate Grows(a: Atoms, b: Atoms) {
    a.list <= b.list && forall x | x in a.ids :: x in b.ids
  }

  lemma NumbersStay(a: Atoms, b: Atoms, wanted: set<FilterAtom>)
    requires a.Valid() && b.Valid() && Grows(a, b) && a.Knows(wanted)
    ensures b.Numbers(wanted) == a.Numbers(wanted) && b.Knows(wanted)
  {
  }

  lemma OneMoreNumber(a: Atoms, b: Atoms, wanted: set<FilterAtom>, pair: FilterAtom)
    requires a.Valid() && b.Valid() && Grows(a, b) && a.Knows(wanted) && pair in b.ids
    ensures b.Numbers(wanted + {pair}) == a.Numbers(wanted) + {b.ids[pair]} && b.Knows(wanted + {pair})
  {
    NumbersStay(a, b, wanted);
  }

  lemma NothingWanted(a: Atoms)
    ensures a.Numbers({}) == {} && a.Knows({})
  {
  }

  /** The atom of one column, numbered on first sight and listed for the literal. */
  function WithAtom(atoms: Atoms, pair: FilterAtom, literalId: nat): (r: Atoms)
    requires atoms.Valid()
    ensures r.Valid() && Grows(atoms, r) && pair in r.ids
    ensures forall x :: x in r.ids <==> x in atoms.ids || x == pair
    ensures forall i | 0 <= i < |r.list| ::
              r.literalIds[i]
                  == (if i < |atoms.list| then atoms.literalIds[i] else {})
                     + (if i == r.ids[pair] then {literalId} else {})
  {
    var known := if pair in atoms.ids then atoms
                 else Atoms(atoms.list + [pair], atoms.ids[pair := |atoms.list|], atoms.literalIds + [{}]);
    var id := known.ids[pair];
    known.(literalIds := known.literalIds[id := known.literalIds[id] + {literalId}])
  }

  method AddAtom(atoms: Atoms, pair: FilterAtom, literalId: nat) returns (r: Atoms, id: nat)
    requires atoms.Valid()
    ensures r == WithAtom(atoms, pair, literalId) && id == r.ids[pair]
  {
    r := atoms;
    if pair !in r.ids {
      r := Atoms(r.list + [pair], r.ids[pair := |r.list|], r.literalIds + [{}]);
    }
    id := r.ids[pair];
    r := r.(literalIds := r.literalIds[id := r.literalIds[id] + {literalId}]);
  }

  ghost predicate LiteralAdded(before: Atoms, after: Atoms, mine: set<nat>, literalId: nat)
    requires |before.literalIds| == |before.list| && |after.literalIds| == |after.list|
  {
    forall i | 0 <= i < |after.list| ::
      after.literalIds[i]
          == (if i < |before.list| then before.literalIds[i] else {}) + (if i in mine then {literalId} else {})
  }

  /** The first n columns of one literal. */
  function WithColumns(atoms: Atoms, vars: Variables, joinKey: nat, literalId: nat, n: nat): (r: Atoms)
    requires atoms.Valid() && n <= |vars|
    ensures r.Valid()
  {
    if n == 0 then atoms
    else
      var before := WithColumns(atoms, vars, joinKey, literalId, n - 1);
      if vars[n - 1] >= 0
      && n - 1 != joinKey then WithAtom(before, FilterAtom(n - 1, vars[n - 1]), literalId) else before
  }

  lemma {:induction false} ColumnsAdded(atoms: Atoms, vars: Variables, joinKey: nat, literalId: nat, n: nat)
    requires atoms.Valid() && n <= |vars|
    ensures var r, wanted := WithColumns(atoms, vars, joinKey, literalId, n), BoundAtoms(vars, joinKey, n);
            && Grows(atoms, r) && r.Knows(wanted) && LiteralAdded(atoms, r, r.Numbers(wanted), literalId)
            && forall x | x in r.ids :: x in atoms.ids || x in wanted
  {
    if n == 0 {
      NothingWanted(atoms);
      assert BoundAtoms(vars, joinKey, 0) == {};
    } else {
      ColumnsAdded(atoms, vars, joinKey, literalId, n - 1);
      var before, soFar := WithColumns(atoms, vars, joinKey, literalId, n - 1), BoundAtoms(vars, joinKey, n - 1);
      if vars[n - 1] >= 0 && n - 1 != joinKey {
        var pair := FilterAtom(n - 1, vars[n - 1]);
        assert BoundAtoms(vars, joinKey, n) == soFar + {pair};
        ColumnAdded(atoms, before, soFar, pair, literalId);
      } else {
        assert BoundAtoms(vars, joinKey, n) == soFar;
      }
    }
  }

  lemma ColumnAdded(atoms: Atoms, before: Atoms, soFar: set<FilterAtom>, pair: FilterAtom, literalId: nat)
    requires atoms.Valid() && before.Valid() && Grows(atoms, before) && before.Knows(soFar)
    requires LiteralAdded(atoms, before, before.Numbers(soFar), literalId)
    ensures var r := WithAtom(before, pair, literalId);
            Grows(atoms, r) && r.Knows(soFar + {pair}) && LiteralAdded(atoms, r, r.Numbers(soFar + {pair}), literalId)
  {
    var r, mine := WithAtom(before, pair, literalId), before.Numbers(soFar);
    OneMoreNumber(before, r, soFar, pair);
    assert forall i | i in mine :: i < |before.list|;
    assert |atoms.literalIds| == |atoms.list| <= |before.list| == |before.literalIds| && |r.literalIds| == |r.list|;
    hide WithAtom, Atoms.Numbers, Atoms.Knows, Atoms.Valid;
    ListsGrow(atoms, before, r, mine, r.ids[pair], literalId);
  }

  lemma ListsGrow(atoms: Atoms, before: Atoms, after: Atoms, mine: set<nat>, id: nat, literalId: nat)
    requires |atoms.literalIds| == |atoms.list| <= |before.list| == |before.literalIds| <= |after.list|
             == |after.literalIds|
    requires LiteralAdded(atoms, before, mine, literalId) && forall i | i in mine :: i < |before.list|
    requires forall i | 0 <= i < |after.list| ::
               after.literalIds[i]
                   == (if i < |before.list| then before.literalIds[i] else {}) + (if i == id then {literalId} else {})
    ensures LiteralAdded(atoms, after, mine + {id}, literalId)
  {
  }

  /** All columns of one literal. */
  method AddLiteral(atoms: Atoms, vars: Variables, joinKey: nat, literalId: nat) returns (r: Atoms, mine: set<nat>)
    requires atoms.Valid()
    ensures r == WithColumns(atoms, vars, joinKey, literalId, |vars|)
    ensures mine == r.Numbers(BoundAtoms(vars, joinKey, |vars|))
  {
    hide Atoms.Numbers, Atoms.Knows, WithAtom;
    r, mine := atoms, {};
    NothingWanted(atoms);
    assert BoundAtoms(vars, joinKey, 0) == {};
    for vid := 0 to |vars|
      invariant r == WithColumns(atoms, vars, joinKey, literalId, vid)
      invariant mine == r.Numbers(BoundAtoms(vars, joinKey, vid))
    {
      ghost var soFar, next := BoundAtoms(vars, joinKey, vid), BoundAtoms(vars, joinKey, vid + 1);
      ColumnsAdded(atoms, vars, joinKey, literalId, vid);
      if vars[vid] >= 0 && vid != joinKey {
        ghost var before := r;
        var id: nat;
        r, id := AddAtom(r, FilterAtom(vid, vars[vid]), literalId);
        mine := mine + {id};
        assert next == soFar + {FilterAtom(vid, vars[vid])};
        OneMoreNumber(before, r, soFar, FilterAtom(vid, vars[vid]));
      } else {
        assert next == soFar;
      }
    }
  }

  /** What the first n literals amount to. */
  datatype Collected = Collected(atoms: Atoms, atomSets: seq<set<nat>>, remaining: set<nat>,
                                 nodeLiterals: map<nat, nat>, rootLiteral: int) {

    ghost predicate Ok(literals: seq<Variables>, joinKey: nat, n: nat)
      requires n <= |literals|
    {
      NumbersOk(literals, joinKey, n) && RemainingOk() && PlacedOk()
    }

    ghost predicate NumbersOk(literals: seq<Variables>, joinKey: nat, n: nat)
      requires n <= |literals|
    {
      && atoms.Valid() && |atomSets| == n
      && forall l | 0 <= l < n ::
           && atoms.Knows(BoundAtoms(literals[l], joinKey, |literals[l]|))
           && atomSets[l] == atoms.Numbers(BoundAtoms(literals[l], joinKey, |literals[l]|))
    }

    /** Literals with two or more atoms remain, and are listed at their atoms. */
    ghost predicate RemainingOk() {
      && (forall l :: l in remaining <==> 0 <= l < |atomSets| && |atomSets[l]| >= 2)
      && forall i, l | 0 <= i < |atoms.literalIds| :: l in atoms.literalIds[i] <==> l in remaining && i in atomSets[l]
    }

    /** The others are placed. */
    ghost predicate PlacedOk() {
      && (forall i | i in nodeLiterals :: nodeLiterals[i] < |atomSets| && atomSets[nodeLiterals[i]] == {i})
      && (forall l, i | 0 <= l < |atomSets| && atomSets[l] == {i} :: i in nodeLiterals)
      && -1 <= rootLiteral < |atomSets|
      && (rootLiteral >= 0 ==> atomSets[rootLiteral] == {})
      && (rootLiteral == -1 ==> forall l | 0 <= l < |atomSets| :: atomSets[l] != {})
    }
  }

  /** One of the first n literals has the atom. */
  ghost predicate Wanted(literals: seq<Variables>, joinKey: nat, n: nat, a: FilterAtom) {
    exists l :: 0 <= l < n && l < |literals| && a in BoundAtoms(literals[l], joinKey, |literals[l]|)
  }

  /** What the next literal leads to, given its atoms. */
  ghost function WithLiteral(c: Collected, atoms: Atoms, mine: set<nat>): (c': Collected)
    requires forall i | i in mine :: i < |atoms.literalIds|
  {
    var literalId, next := |c.atomSets|, c.(atoms := atoms, atomSets := c.atomSets + [mine]);
    if mine == {} then next.(rootLiteral := literalId)
    else if |mine| == 1 then
      var id: nat :| id in mine;
      next.(atoms := atoms.(literalIds := atoms.literalIds[id := atoms.literalIds[id] - {literalId}]),
            nodeLiterals := c.nodeLiterals[id := literalId])
    else next.(remaining := c.remaining + {literalId})
  }

  /** What the first n literals lead to. */
  ghost function Collect(literals: seq<Variables>, joinKey: nat, n: nat): (c: Collected)
    requires n <= |literals|
    ensures c.atoms.Valid() && |c.atomSets| == n
  {
    if n == 0 then Collected(Atoms([], map[], []), [], {}, map[], -1)
    else
      var c, vars := Collect(literals, joinKey, n - 1), literals[n - 1];
      var atoms := WithColumns(c.atoms, vars, joinKey, n - 1, |vars|);
      WithLiteral(c, atoms, atoms.Numbers(BoundAtoms(vars, joinKey, |vars|)))
  }

  lemma {:induction false} CollectIsOk(literals: seq<Variables>, joinKey: nat, n: nat)
    requires n <= |literals|
    ensures Collect(literals, joinKey, n).Ok(literals, joinKey, n)
    ensures forall a | a in Collect(literals, joinKey, n).atoms.ids :: Wanted(literals, joinKey, n, a)
  {
    if n > 0 {
      CollectIsOk(literals, joinKey, n - 1);
      var c := Collect(literals, joinKey, n - 1);
      hide *;
      CollectNext(literals, joinKey, n, c);
    }
  }

  lemma CollectNext(literals: seq<Variables>, joinKey: nat, n: nat, c: Collected)
    requires 0 < n <= |literals| && c == Collect(literals, joinKey, n - 1) && c.Ok(literals, joinKey, n - 1)
    requires forall a | a in c.atoms.ids :: Wanted(literals, joinKey, n - 1, a)
    ensures Collect(literals, joinKey, n).Ok(literals, joinKey, n)
    ensures forall a | a in Collect(literals, joinKey, n).atoms.ids :: Wanted(literals, joinKey, n, a)
  {
    hide Collected.Ok, WithLiteral, WithColumns, BoundAtoms, Wanted, Atoms.Numbers, Atoms.Knows, Atoms.Valid, Grows,
        LiteralAdded;
    var vars := literals[n - 1];
    assert c.atoms.Valid();
    var atoms := WithColumns(c.atoms, vars, joinKey, n - 1, |vars|);
    var wanted := BoundAtoms(vars, joinKey, |vars|);
    ColumnsAdded(c.atoms, vars, joinKey, n - 1, |vars|);
    LiteralKeepsOk(literals, joinKey, c, n - 1, atoms, atoms.Numbers(wanted));
    assert Collect(literals, joinKey, n) == WithLiteral(c, atoms, atoms.Numbers(wanted));
    forall a | a in Collect(literals, joinKey, n).atoms.ids
      ensures Wanted(literals, joinKey, n, a)
    {
      assert a in c.atoms.ids || a in wanted;
      WantedToo(literals, joinKey, n, a);
    }
  }

  lemma WantedToo(literals: seq<Variables>, joinKey: nat, n: nat, a: FilterAtom)
    requires 0 < n <= |literals|
    requires Wanted(literals, joinKey, n - 1, a) || a in BoundAtoms(literals[n - 1], joinKey, |literals[n - 1]|)
    ensures Wanted(literals, joinKey, n, a)
  {
    hide BoundAtoms;
  }

  lemma LiteralKeepsOk(literals: seq<Variables>, joinKey: nat, c: Collected, literalId: nat, atoms: Atoms,
                       mine: set<nat>)
    requires literalId < |literals| && c.Ok(literals, joinKey, literalId)
    requires atoms.Valid() && Grows(c.atoms, atoms) && LiteralAdded(c.atoms, atoms, mine, literalId)
    requires var wanted := BoundAtoms(literals[literalId], joinKey, |literals[literalId]|);
             atoms.Knows(wanted) && mine == atoms.Numbers(wanted)
    ensures forall i | i in mine :: i < |atoms.literalIds|
    ensures WithLiteral(c, atoms, mine).Ok(literals, joinKey, literalId + 1)
            && WithLiteral(c, atoms, mine).atoms.ids == atoms.ids
  {
    MoreNumbers(literals, joinKey, c, atoms, mine);
    assert |c.atomSets| == literalId && c.RemainingOk() && c.PlacedOk();
    hide *;
    if mine == {} {
      WithoutAtoms(c, atoms);
      FirstCase(c, atoms, mine);
    } else if |mine| == 1 {
      OneAtomKeepsOk(literals, joinKey, c, literalId, atoms, mine);
    } else {
      WithMoreAtoms(c, atoms, mine);
      LastCase(c, atoms, mine);
    }
    AllOk(literals, joinKey, c, literalId, atoms, mine);
  }

  lemma FirstCase(c: Collected, atoms: Atoms, mine: set<nat>)
    requires mine == {}
    ensures WithLiteral(c, atoms, mine)
         == c.(atoms := atoms, atomSets := c.atomSets + [{}], rootLiteral := |c.atomSets|)
  {
  }

  lemma LastCase(c: Collected, atoms: Atoms, mine: set<nat>)
    requires |mine| > 1 && forall i | i in mine :: i < |atoms.literalIds|
    ensures WithLiteral(c, atoms, mine)
         == c.(atoms := atoms, atomSets := c.atomSets + [mine], remaining := c.remaining + {|c.atomSets|})
  {
  }

  lemma OneAtomKeepsOk(literals: seq<Variables>, joinKey: nat, c: Collected, literalId: nat, atoms: Atoms,
                       mine: set<nat>)
    requires literalId == |c.atomSets| < |literals| && |mine| == 1 && (forall i | i in mine :: i < |atoms.literalIds|)
    requires c.RemainingOk() && c.PlacedOk() && NumbersInRange(c)
    requires |c.atoms.literalIds| == |c.atoms.list| <= |atoms.list| == |atoms.literalIds|
    requires LiteralAdded(c.atoms, atoms, mine, |c.atomSets|)
    requires c.(atoms := atoms, atomSets := c.atomSets + [mine]).NumbersOk(literals, joinKey, literalId + 1)
    ensures var c' := WithLiteral(c, atoms, mine);
            c'.RemainingOk() && c'.PlacedOk() && c'.NumbersOk(literals, joinKey, literalId + 1)
  {
    hide *;
    var id := TheOne(c, atoms, mine);
    WithOneAtom(c, atoms, id);
    var next, c' := c.(atoms := atoms, atomSets := c.atomSets + [mine]), WithLiteral(c, atoms, mine);
    StillNumbers(literals, joinKey, next, literalId + 1, c'.atoms.literalIds, c');
  }

  /** The parts of the invariant, put together. */
  lemma AllOk(literals: seq<Variables>, joinKey: nat, c: Collected, literalId: nat, atoms: Atoms, mine: set<nat>)
    requires literalId == |c.atomSets| < |literals| && (forall i | i in mine :: i < |atoms.literalIds|)
    requires c.(atoms := atoms, atomSets := c.atomSets + [mine]).NumbersOk(literals, joinKey, literalId + 1)
    requires var c' := WithLiteral(c, atoms, mine);
             && c'.RemainingOk() && c'.PlacedOk()
             && (|mine| == 1 ==> c'.NumbersOk(literals, joinKey, literalId + 1))
    ensures WithLiteral(c, atoms, mine).Ok(literals, joinKey, literalId + 1)
            && WithLiteral(c, atoms, mine).atoms.ids == atoms.ids
  {
    hide BoundAtoms, Atoms.Numbers, Atoms.Knows, Collected.RemainingOk, Collected.PlacedOk, Atoms.Valid;
    var c' := WithLiteral(c, atoms, mine);
    if |mine| != 1 {
      assert c'.atoms == atoms && c'.atomSets == c.atomSets + [mine];
    }
  }

  /** The only atom. */
  lemma TheOne(c: Collected, atoms: Atoms, mine: set<nat>) returns (id: nat)
    requires |mine| == 1 && forall i | i in mine :: i < |atoms.literalIds|
    ensures id < |atoms.literalIds| && mine == {id}
    ensures WithLiteral(c, atoms, mine)
         == c.(atoms := atoms.(literalIds := atoms.literalIds[id := atoms.literalIds[id] - {|c.atomSets|}]),
               atomSets := c.atomSets + [{id}], nodeLiterals := c.nodeLiterals[id := |c.atomSets|])
  {
    var some := Member(mine);
    id :| id in mine;
    SingletonIs(mine, id);
  }

  method CollectAtoms(literals: seq<Variables>, joinKey: nat) returns (c: Collected)
    ensures c == Collect(literals, joinKey, |literals|)
  {
    c := Collected(Atoms([], map[], []), [], {}, map[], -1);
    for literalId := 0 to |literals|
      invariant c == Collect(literals, joinKey, literalId)
    {
      var atoms, mine := AddLiteral(c.atoms, literals[literalId], joinKey, literalId);
      c := PlaceLiteral(c, literalId, atoms, mine);
    }
  }

  /** A literal without atoms belongs to the whole plan, one with a single atom
      to that atom's node; the others remain to be placed. */
  method PlaceLiteral(c: Collected, literalId: nat, atoms: Atoms, mine: set<nat>) returns (c': Collected)
    requires literalId == |c.atomSets| && forall i | i in mine :: i < |atoms.literalIds|
    ensures c' == WithLiteral(c, atoms, mine)
  {
    var next := c.(atoms := atoms, atomSets := c.atomSets + [mine]);
    if mine == {} {
      c' := next.(rootLiteral := literalId);
    } else if |mine| == 1 {
      ghost var theOne := TheOne(c, atoms, mine);
      var id :| id in mine;
      c' := next.(atoms := atoms.(literalIds := atoms.literalIds[id := atoms.literalIds[id] - {literalId}]),
                  nodeLiterals := c.nodeLiterals[id := literalId]);
    } else {
      c' := next.(remaining := c.remaining + {literalId});
    }
  }

  /** Every number in use is below the number of atoms. */
  ghost predicate NumbersInRange(c: Collected) {
    forall l, i | 0 <= l < |c.atomSets| && i in c.atomSets[l] :: i < |c.atoms.literalIds|
  }

  lemma WithoutAtoms(c: Collected, atoms: Atoms)
    requires c.RemainingOk() && c.PlacedOk() && NumbersInRange(c)
    requires |c.atoms.literalIds| == |c.atoms.list| <= |atoms.list| == |atoms.literalIds|
    requires LiteralAdded(c.atoms, atoms, {}, |c.atomSets|)
    ensures var c' := c.(atoms := atoms, atomSets := c.atomSets + [{}], rootLiteral := |c.atomSets|);
            c'.RemainingOk() && c'.PlacedOk()
  {
  }

  lemma WithOneAtom(c: Collected, atoms: Atoms, id: nat)
    requires c.RemainingOk() && c.PlacedOk() && NumbersInRange(c) && id < |atoms.literalIds|
    requires |c.atoms.literalIds| == |c.atoms.list| <= |atoms.list| == |atoms.literalIds|
    requires LiteralAdded(c.atoms, atoms, {id}, |c.atomSets|)
    ensures var c' := c.(atoms := atoms.(literalIds := atoms.literalIds[id := atoms.literalIds[id] - {|c.atomSets|}]),
                         atomSets := c.atomSets + [{id}], nodeLiterals := c.nodeLiterals[id := |c.atomSets|]);
            c'.RemainingOk() && c'.PlacedOk()
  {
  }

  lemma WithMoreAtoms(c: Collected, atoms: Atoms, mine: set<nat>)
    requires c.RemainingOk() && c.PlacedOk() && NumbersInRange(c) && |mine| >= 2
    requires |c.atoms.literalIds| == |c.atoms.list| <= |atoms.list| == |atoms.literalIds|
    requires LiteralAdded(c.atoms, atoms, mine, |c.atomSets|)
    ensures var c' := c.(atoms := atoms, atomSets := c.atomSets + [mine], remaining := c.remaining + {|c.atomSets|});
            c'.RemainingOk() && c'.PlacedOk()
  {
    hide Atoms.Numbers;
  }

  lemma MoreNumbers(literals: seq<Variables>, joinKey: nat, c: Collected, atoms: Atoms, mine: set<nat>)
    requires |c.atomSets| < |literals| && c.NumbersOk(literals, joinKey, |c.atomSets|)
    requires atoms.Valid() && Grows(c.atoms, atoms)
    requires var wanted := BoundAtoms(literals[|c.atomSets|], joinKey, |literals[|c.atomSets|]|);
             atoms.Knows(wanted) && mine == atoms.Numbers(wanted)
    ensures c.(atoms := atoms, atomSets := c.atomSets + [mine]).NumbersOk(literals, joinKey, |c.atomSets| + 1)
    ensures |c.atoms.literalIds| == |c.atoms.list| <= |atoms.list| == |atoms.literalIds|
    ensures forall i | i in mine :: i < |atoms.literalIds|
    ensures NumbersInRange(c)
  {
    forall l | 0 <= l < |c.atomSets|
      ensures atoms.Knows(BoundAtoms(literals[l], joinKey, |literals[l]|))
      ensures c.atomSets[l] == atoms.Numbers(BoundAtoms(literals[l], joinKey, |literals[l]|))
    {
      NumbersStay(c.atoms, atoms, BoundAtoms(literals[l], joinKey, |literals[l]|));
    }
  }

  /** Lists of literals at the atoms have no say in the numbering. */
  lemma StillNumbers(literals: seq<Variables>, joinKey: nat, c: Collected, n: nat, literalIds: seq<set<nat>>,
                     c': Collected)
    requires n <= |literals| && c.NumbersOk(literals, joinKey, n) && |literalIds| == |c.atoms.list|
    requires c'.atoms == c.atoms.(literalIds := literalIds) && c'.atomSets == c.atomSets
    ensures c'.NumbersOk(literals, joinKey, n)
  {
    forall l | 0 <= l < n
      ensures c'.atoms.Knows(BoundAtoms(literals[l], joinKey, |literals[l]|))
      ensures c'.atomSets[l] == c'.atoms.Numbers(BoundAtoms(literals[l], joinKey, |literals[l]|))
    {
      assert c.atoms.Knows(BoundAtoms(literals[l], joinKey, |literals[l]|));
      assert c.atomSets[l] == c.atoms.Numbers(BoundAtoms(literals[l], joinKey, |literals[l]|));
    }
  }

  lemma SingletonIs(s: set<nat>, x: nat)
    requires x in s && |s| == 1
    ensures s == {x}
  {
    assert |s - {x}| == 0;
  }
}
