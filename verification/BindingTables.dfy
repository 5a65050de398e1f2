/** CreateLabelAwareBindingTables and CreateBindingTable: the binding table of a
    clause extended by a literal (operations/MultiColumnHashJoin.cpp). */
module BindingTables {
  import opened Bits
  import opened RadixPartition
  import opened HashTable
  import opened Tallies
  import opened Bindings
  import opened KeyColumns
  import opened JoinMeaning
  import opened MultiColumnJoin

  // ---------------------------------------------------------------------
  // What a binding table must hold
  // ---------------------------------------------------------------------

  /** The columns of a literal with an unbound variable, in order. */
  function Unbound(vars: Variables, n: nat): (vids: seq<nat>)
    requires n <= |vars|
    ensures forall j | 0 <= j < |vids| :: vids[j] < n && vars[vids[j]] < 0
  {
    if n == 0 then []
    else if vars[n - 1] < 0 then Unbound(vars, n - 1) + [n - 1]
    else Unbound(vars, n - 1)
  }

  function Bound(vars: Variables, n: nat): (vids: seq<nat>)
    requires n <= |vars|
    ensures forall j | 0 <= j < |vids| :: vids[j] < n && vars[vids[j]] >= 0
    ensures forall i | 0 <= i < n && vars[i] >= 0 :: i in vids
  {
    if n == 0 then []
    else if vars[n - 1] >= 0 then Bound(vars, n - 1) + [n - 1]
    else Bound(vars, n - 1)
  }

  /** Column c of the extended table: the old columns, then the facts' values
      for the unbound variables, one row per joined pair. */
  ghost function Extended(c: nat, facts: seq<seq<Value>>, bindings: seq<seq<Value>>, unbound: seq<nat>,
                          pairs: seq<Pair>): (v: seq<Value>)
    ensures |v| == |pairs|
  {
    seq(|pairs|, k requires 0 <= k < |pairs| => ExtendedAt(c, facts, bindings, unbound, pairs[k]))
  }

  ghost function ExtendedAt(c: nat, facts: seq<seq<Value>>, bindings: seq<seq<Value>>, unbound: seq<nat>,
                            q: Pair): (v: Value) {
    if c < |bindings| then ValueAt(bindings[c], q.binding)
    else if c - |bindings| < |unbound|
    && unbound[c - |bindings|] < |facts| then ValueAt(facts[unbound[c - |bindings|]], q.fact)
    else 0
  }

  /** The pairs are the witnesses of the literal, each once. */
  ghost predicate Enumerated(pairs: seq<Pair>, facts: seq<seq<Value>>, bindings: seq<seq<Value>>, vars: Variables) {
    Distinct(pairs) && forall q :: q in pairs <==> q in Witnesses(facts, bindings, vars)
  }

  lemma {:induction false} EnumerationSize<T>(s: seq<T>, all: set<T>)
    requires Distinct(s) && forall x :: x in s <==> x in all
    ensures |s| == |all|
  {
    if s == [] {
      assert all == {};
    } else {
      var init, last := s[..|s| - 1], s[|s| - 1];
      assert s == init + [last];
      assert last !in init;
      EnumerationSize(init, all - {last});
    }
  }

  /** Two enumerations of the same witnesses are the same multiset of rows,
      however they were found. */
  lemma {:induction false} SameMultiset<T>(a: seq<T>, b: seq<T>)
    requires Distinct(a) && Distinct(b) && forall x :: x in a <==> x in b
    ensures multiset(a) == multiset(b)
  {
    DistinctMultiset(a);
    DistinctMultiset(b);
    forall x
      ensures multiset(a)[x] == multiset(b)[x]
    {
    }
  }

  lemma {:induction false} DistinctMultiset<T>(s: seq<T>)
    requires Distinct(s)
    ensures forall x :: multiset(s)[x] == if x in s then 1 else 0
  {
    if s != [] {
      var init, last := s[..|s| - 1], s[|s| - 1];
      assert s == init + [last];
      DistinctMultiset(init);
      assert last !in init;
    }
  }

  // ---------------------------------------------------------------------
  // Equal keys are agreeing rows
  // ---------------------------------------------------------------------

  function BindingKeys(vars: Variables): (keys: seq<nat>)
    ensures |keys| == |Bound(vars, |vars|)| && forall j | 0 <= j < |keys| :: keys[j] == vars[Bound(vars, |vars|)[j]]
  {
    seq(|Bound(vars, |vars|)|, j requires 0 <= j < |Bound(vars, |vars|)| => vars[Bound(vars, |vars|)[j]])
  }

  function FactSide(facts: seq<seq<Value>>, vars: Variables): (side: JoinSide) {
    JoinSide(facts, Bound(vars, |vars|))
  }

  function BindingSide(bindings: seq<seq<Value>>, vars: Variables): (side: JoinSide) {
    JoinSide(bindings, BindingKeys(vars))
  }

  /** The literal fits both tables and has a bound variable. */
  ghost predicate LiteralFits(facts: seq<seq<Value>>, bindings: seq<seq<Value>>, vars: Variables) {
    && Rectangular(facts) && Rectangular(bindings) && bindings != []
    && |vars| == |facts| && (exists v :: 0 <= v < |vars| && vars[v] >= 0)
    && forall v | 0 <= v < |vars| :: vars[v] < |bindings|
  }

  lemma SidesAreValid(facts: seq<seq<Value>>, bindings: seq<seq<Value>>, vars: Variables)
    requires LiteralFits(facts, bindings, vars)
    ensures FactSide(facts, vars).Valid() && BindingSide(bindings, vars).Valid()
    ensures |FactSide(facts, vars).keys| == |BindingSide(bindings, vars).keys|
  {
    var v :| 0 <= v < |vars| && vars[v] >= 0;
    assert v in Bound(vars, |vars|);
  }

  lemma KeysEqualMeansAgrees(facts: seq<seq<Value>>, bindings: seq<seq<Value>>, vars: Variables, f: nat, b: nat)
    requires LiteralFits(facts, bindings, vars) && f < Rows(facts) && b < Rows(bindings)
    requires FactSide(facts, vars).Valid() && BindingSide(bindings, vars).Valid()
    ensures FactSide(facts, vars).KeyRows()[f] == BindingSide(bindings, vars).KeyRows()[b]
            <==> Agrees(facts, bindings, vars, f, b)
  {
    var fs, bs := FactSide(facts, vars), BindingSide(bindings, vars);
    fs.ColumnsHaveRows();
    bs.ColumnsHaveRows();
    fs.KeyOfRow(f);
    bs.KeyOfRow(b);
    var x, y := fs.KeyRows()[f], bs.KeyRows()[b];
    hide JoinSide.KeyRows, JoinSide.Valid;
    forall j | 0 <= j < |fs.keys|
      ensures x[j] == y[j] <==> AgreesAt(facts, bindings, fs.keys[j], vars[fs.keys[j]], f, b)
    {
    }
    if x == y {
      forall v | 0 <= v < |vars| && vars[v] >= 0
        ensures AgreesAt(facts, bindings, v, vars[v], f, b)
      {
        assert v in fs.keys;
        var j :| 0 <= j < |fs.keys| && fs.keys[j] == v;
        assert x[j] == y[j];
      }
    }
  }

  // ---------------------------------------------------------------------
  // Joined row numbers as witnesses
  // ---------------------------------------------------------------------

  /** Joined rows as pairs of fact and binding; facts may be on either side. */
  ghost function AsPairs(tids: seq<TidPair>, factsProbe: bool): (pairs: seq<Pair>)
    ensures |pairs| == |tids|
  {
    seq(|tids|, k requires 0 <= k < |tids| => AsPair(tids[k], factsProbe))
  }

  ghost function AsPair(q: TidPair, factsProbe: bool): (p: Pair) {
    if factsProbe then Pair(q.probe, q.build) else Pair(q.build, q.probe)
  }

  lemma AsPairsExact(tids: seq<TidPair>, factsProbe: bool)
    ensures forall p :: p in AsPairs(tids, factsProbe)
                        <==> (if factsProbe then TidPair(p.fact, p.binding) else TidPair(p.binding, p.fact)) in tids
    ensures Distinct(tids) ==> Distinct(AsPairs(tids, factsProbe))
  {
    var pairs := AsPairs(tids, factsProbe);
    forall p
      ensures p in pairs <==> (if factsProbe then TidPair(p.fact, p.binding) else TidPair(p.binding, p.fact)) in tids
    {
      var q := if factsProbe then TidPair(p.fact, p.binding) else TidPair(p.binding, p.fact);
      if q in tids {
        var k :| 0 <= k < |tids| && tids[k] == q;
        assert pairs[k] == p;
      }
    }
  }

  lemma FactsProbe(facts: seq<seq<Value>>, bindings: seq<seq<Value>>, vars: Variables)
    requires LiteralFits(facts, bindings, vars)
    ensures FactSide(facts, vars).Valid() && BindingSide(bindings, vars).Valid()
    ensures var tids := AllPairs(FactSide(facts, vars), BindingSide(bindings, vars));
            Enumerated(AsPairs(tids, true), facts, bindings, vars) && |tids| == |Witnesses(facts, bindings, vars)|
  {
    SidesAreValid(facts, bindings, vars);
    var fs, bs := FactSide(facts, vars), BindingSide(bindings, vars);
    var tids := AllPairs(fs, bs);
    JoinedTidsAreExact(fs.KeyRows(), bs.KeyRows(), |fs.KeyRows()|);
    AsPairsExact(tids, true);
    forall p
      ensures p in AsPairs(tids, true) <==> p in Witnesses(facts, bindings, vars)
    {
      WitnessByKeys(facts, bindings, vars, p);
    }
    EnumerationSize(AsPairs(tids, true), Witnesses(facts, bindings, vars));
  }

  lemma BindingsProbe(facts: seq<seq<Value>>, bindings: seq<seq<Value>>, vars: Variables)
    requires LiteralFits(facts, bindings, vars)
    ensures FactSide(facts, vars).Valid() && BindingSide(bindings, vars).Valid()
    ensures var tids := AllPairs(BindingSide(bindings, vars), FactSide(facts, vars));
            Enumerated(AsPairs(tids, false), facts, bindings, vars) && |tids| == |Witnesses(facts, bindings, vars)|
  {
    SidesAreValid(facts, bindings, vars);
    var fs, bs := FactSide(facts, vars), BindingSide(bindings, vars);
    var tids := AllPairs(bs, fs);
    JoinedTidsAreExact(bs.KeyRows(), fs.KeyRows(), |bs.KeyRows()|);
    AsPairsExact(tids, false);
    forall p
      ensures p in AsPairs(tids, false) <==> p in Witnesses(facts, bindings, vars)
    {
      WitnessByKeys(facts, bindings, vars, p);
    }
    EnumerationSize(AsPairs(tids, false), Witnesses(facts, bindings, vars));
  }

  lemma WitnessByKeys(facts: seq<seq<Value>>, bindings: seq<seq<Value>>, vars: Variables, p: Pair)
    requires LiteralFits(facts, bindings, vars)
    requires FactSide(facts, vars).Valid() && BindingSide(bindings, vars).Valid()
    ensures p in Witnesses(facts, bindings, vars)
            <==> && p.fact < |FactSide(facts, vars).KeyRows()| && p.binding < |BindingSide(bindings, vars).KeyRows()|
                 && FactSide(facts, vars).KeyRows()[p.fact] == BindingSide(bindings, vars).KeyRows()[p.binding]
  {
    hide JoinSide.KeyRows, Agrees, LiteralFits, JoinSide.Valid;
    assert p == Pair(p.fact, p.binding);
    if p.fact < Rows(facts) && p.binding < Rows(bindings) {
      KeysEqualMeansAgrees(facts, bindings, vars, p.fact, p.binding);
    }
  }

  // ---------------------------------------------------------------------
  // Projections
  // ---------------------------------------------------------------------

  /** Old columns from the build side, new ones from the probing facts. */
  function FactsProbeProjections(numBindings: nat, numFacts: nat, unbound: seq<nat>): (ps: seq<nat>) {
    seq(numBindings, i requires 0 <= i < numBindings => i + numFacts) + unbound
  }

  /** Old columns from the probing bindings, new ones from the build side. */
  function BindingsProbeProjections(numBindings: nat, unbound: seq<nat>): (ps: seq<nat>) {
    seq(numBindings, i requires 0 <= i < numBindings => i)
        + seq(|unbound|, j requires 0 <= j < |unbound| => unbound[j] + numBindings)
  }

  lemma FactsProbeProject(facts: seq<seq<Value>>, bindings: seq<seq<Value>>, unbound: seq<nat>, tids: seq<TidPair>,
                          c: nat)
    requires c < |bindings| + |unbound| && forall j | 0 <= j < |unbound| :: unbound[j] < |facts|
    ensures Projected(FactsProbeProjections(|bindings|, |facts|, unbound)[c], facts, bindings, tids)
         == Extended(c, facts, bindings, unbound, AsPairs(tids, true))
  {
  }

  lemma BindingsProbeProject(facts: seq<seq<Value>>, bindings: seq<seq<Value>>, unbound: seq<nat>, tids: seq<TidPair>,
                             c: nat)
    requires c < |bindings| + |unbound| && forall j | 0 <= j < |unbound| :: unbound[j] < |facts|
    ensures Projected(BindingsProbeProjections(|bindings|, unbound)[c], bindings, facts, tids)
         == Extended(c, facts, bindings, unbound, AsPairs(tids, false))
  {
  }

  // ---------------------------------------------------------------------
  // The two strategies
  // ---------------------------------------------------------------------

  /** Row by row the new table: the positive joins in front, the negative ones
      behind, nothing left over. */
  ghost predicate IsBindingTable(columns: seq<seq<Value>>, facts: seq<seq<Value>>, data: BindingData, vars: Variables,
                                 positive: seq<Pair>, negative: seq<Pair>)
  {
    var unbound := Unbound(vars, |vars|);
    && Enumerated(positive, facts, data.Positive(), vars)
    && Enumerated(negative, facts, data.Negative(), vars)
    && |columns| == |data.Positive()| + |unbound|
    && forall c | 0 <= c < |columns| ::
         columns[c]
             == Extended(c, facts, data.Positive(), unbound, positive)
                + Extended(c, facts, data.Negative(), unbound, negative)
  }

  /** Some enumeration of the positive and the negative witnesses makes up the columns. */
  ghost predicate HoldsBindings(columns: seq<seq<Value>>, facts: seq<seq<Value>>, data: BindingData, vars: Variables) {
    exists positive, negative :: IsBindingTable(columns, facts, data, vars, positive, negative)
  }

  ghost predicate Extendable(facts: seq<seq<Value>>, data: BindingData, vars: Variables) {
    && LiteralFits(facts, data.Positive(), vars) && LiteralFits(facts, data.Negative(), vars)
    && |data.Positive()| == |data.Negative()|
  }

  /** The buffers have exactly the room the counts ask for. */
  ghost predicate Room(page: seq<seq<Value>>, facts: seq<seq<Value>>, data: BindingData, vars: Variables,
                       numPositive: nat, numNegative: nat) {
    && numPositive == |Witnesses(facts, data.Positive(), vars)|
    && numNegative == |Witnesses(facts, data.Negative(), vars)|
    && |page| == |data.Positive()| + |Unbound(vars, |vars|)|
    && forall c | 0 <= c < |page| :: |page[c]| == numPositive + numNegative
  }

  /** Filling both regions completely leaves nothing of the old contents. */
  lemma FilledPage(page: seq<Value>, a: seq<Value>, b: seq<Value>)
    requires |page| == |a| + |b|
    ensures Spliced(Spliced(page, 0, a), |a|, b) == a + b
  {
  }

  lemma ProjectionsFit(facts: seq<seq<Value>>, bindings: seq<seq<Value>>, vars: Variables)
    requires |vars| == |facts|
    ensures var unbound := Unbound(vars, |vars|);
            && ProjectionsOk(FactsProbeProjections(|bindings|, |facts|, unbound), |facts|, |bindings|,
                             Populate(unbound != [], true))
            && ProjectionsOk(BindingsProbeProjections(|bindings|, unbound), |bindings|, |facts|,
                             Populate(true, unbound != []))
  {
  }

  /** The fact table probes hash tables over the positive and negative bindings. */
  method ProbeWithFacts(facts: seq<seq<Value>>, data: BindingData, vars: Variables, numPositive: nat, hashing: Hashing,
                        chunkSize: nat,
                        outputs: seq<array<Value>>, ghost numNegative: nat, ghost page: seq<seq<Value>>)
    returns (ghost columns: seq<seq<Value>>, ghost positive: seq<Pair>, ghost negative: seq<Pair>)
    requires Extendable(facts, data, vars) && chunkSize > 0
    requires 0 < Rows(data.Positive()) <= Pow2(30) && 0 < Rows(data.Negative()) <= Pow2(30)
    requires DistinctBuffers(outputs) && Holds(outputs, page) && Room(page, facts, data, vars, numPositive, numNegative)
    modifies set i | 0 <= i < |outputs| :: outputs[i]
    ensures Holds(outputs, columns) && IsBindingTable(columns, facts, data, vars, positive, negative)
  {
    hide *;
    var positives, negatives := data.Positive(), data.Negative();
    var unbound := Unbound(vars, |vars|);
    FactsProbeRoom(facts, data, vars, numPositive, numNegative, page);
    var probe, left, right := FactSide(facts, vars), BindingSide(positives, vars), BindingSide(negatives, vars);
    var leftTable := BuildOn(left, hashing);
    var rightTable := BuildOn(right, hashing);
    AreJoinable(probe, left, leftTable, hashing);
    AreJoinable(probe, right, rightTable, hashing);
    var projections := FactsProbeProjections(|positives|, |facts|, unbound);
    CollaborateJoinImpl(probe, left, right, leftTable, rightTable, hashing, projections, Populate(unbound != [], true),
                        chunkSize, outputs, 0, numPositive, page);
    positive, negative := AsPairs(AllPairs(probe, left), true), AsPairs(AllPairs(probe, right), true);
    columns := FactsProbeTable(facts, data, vars, numPositive, numNegative, page, outputs);
  }

  lemma AreJoinable(probe: JoinSide, build: JoinSide, table: FoilHashTable, hashing: Hashing)
    requires probe.Valid() && build.Valid() && |probe.keys| == |build.keys|
             && Indexes(table, build.KeyRows(), hashing.OfKey())
    ensures Joinable(probe, build, table, hashing)
  {
    hide Indexes;
  }

  /** The counts leave exactly the room the two joins need. */
  lemma FactsProbeRoom(facts: seq<seq<Value>>, data: BindingData, vars: Variables, numPositive: nat, numNegative: nat,
                       page: seq<seq<Value>>)
    requires Extendable(facts, data, vars) && Room(page, facts, data, vars, numPositive, numNegative)
    ensures var positives, negatives, unbound := data.Positive(), data.Negative(), Unbound(vars, |vars|);
            var probe, left, right := FactSide(facts, vars), BindingSide(positives, vars), BindingSide(negatives, vars);
            var projections := FactsProbeProjections(|positives|, |facts|, unbound);
            && probe.Valid() && left.Valid() && right.Valid() && |probe.keys| == |left.keys| == |right.keys|
            && probe.columns == facts && left.columns == positives && right.columns == negatives
            && |left.columns| == |right.columns|
            && |AllPairs(probe, left)| == numPositive && |AllPairs(probe, right)| == numNegative
            && ProjectionsOk(projections, |probe.columns|, |left.columns|, Populate(unbound != [], true))
            && Fits(page, projections, numPositive + |AllPairs(probe, right)|)
            && 0 + |AllPairs(probe, left)| <= numPositive
            && Enumerated(AsPairs(AllPairs(probe, left), true), facts, positives, vars)
            && Enumerated(AsPairs(AllPairs(probe, right), true), facts, negatives, vars)
  {
    hide Enumerated, Witnesses, ProjectionsOk, AllPairs, Bound, BindingData.Positive, BindingData.Negative,
        JoinSide.Valid;
    var positives, negatives := data.Positive(), data.Negative();
    FactsProbe(facts, positives, vars);
    FactsProbe(facts, negatives, vars);
    ProjectionsFit(facts, positives, vars);
  }

  lemma FactsProbeTable(facts: seq<seq<Value>>, data: BindingData, vars: Variables, numPositive: nat, numNegative: nat,
                        page: seq<seq<Value>>, outputs: seq<array<Value>>)
    returns (columns: seq<seq<Value>>)
    requires Extendable(facts, data, vars) && Room(page, facts, data, vars, numPositive, numNegative)
    requires var positives, negatives, unbound := data.Positive(), data.Negative(), Unbound(vars, |vars|);
             var probe, left, right := FactSide(facts, vars), BindingSide(positives, vars),
                 BindingSide(negatives, vars);
             && probe.Valid() && left.Valid() && right.Valid()
             && BothSoFar(probe, left, right, FactsProbeProjections(|positives|, |facts|, unbound), outputs, 0,
                          numPositive, page,
                          Rows(facts), 0 + |AllPairs(probe, left)|, numPositive + |AllPairs(probe, right)|)
    ensures Holds(outputs, columns)
    ensures FactSide(facts, vars).Valid() && BindingSide(data.Positive(), vars).Valid()
            && BindingSide(data.Negative(), vars).Valid()
    ensures IsBindingTable(columns, facts, data, vars,
                           AsPairs(AllPairs(FactSide(facts, vars), BindingSide(data.Positive(), vars)), true),
                           AsPairs(AllPairs(FactSide(facts, vars), BindingSide(data.Negative(), vars)), true))
  {
    hide *;
    FactsProbeRoom(facts, data, vars, numPositive, numNegative, page);
    var positives, negatives, unbound := data.Positive(), data.Negative(), Unbound(vars, |vars|);
    var probe, left, right := FactSide(facts, vars), BindingSide(positives, vars), BindingSide(negatives, vars);
    var projections := FactsProbeProjections(|positives|, |facts|, unbound);
    PageOfBoth(probe, left, right, projections, outputs, 0, numPositive, page, AllPairs(probe, left),
               AllPairs(probe, right));
    columns := FactsTable(facts, positives, negatives, unbound, page, AllPairs(probe, left), AllPairs(probe, right));
    FactsTableIs(facts, positives, negatives, unbound, page, AllPairs(probe, left), AllPairs(probe, right));
    RoomIs(facts, data, vars, numPositive, numNegative, page);
    FactsTableFilled(facts, positives, negatives, unbound, page, AllPairs(probe, left), AllPairs(probe, right));
    TableFrom(columns, facts, data, vars, AsPairs(AllPairs(probe, left), true), AsPairs(AllPairs(probe, right), true));
  }

  lemma RoomIs(facts: seq<seq<Value>>, data: BindingData, vars: Variables, numPositive: nat, numNegative: nat,
               page: seq<seq<Value>>)
    requires Extendable(facts, data, vars) && Room(page, facts, data, vars, numPositive, numNegative)
    ensures |data.Positive()| == |data.Negative()| && |page| == |data.Positive()| + |Unbound(vars, |vars|)|
    ensures forall c | 0 <= c < |page| :: |page[c]| == numPositive + numNegative
    ensures forall j | 0 <= j < |Unbound(vars, |vars|)| :: Unbound(vars, |vars|)[j] < |facts|
  {
    hide Witnesses, BindingData.Positive, BindingData.Negative;
  }

  lemma PageOfBoth(probe: JoinSide, left: JoinSide, right: JoinSide, projections: seq<nat>, outputs: seq<array<Value>>,
                   l: nat, r: nat, page: seq<seq<Value>>, a: seq<TidPair>, b: seq<TidPair>)
    requires probe.Valid() && left.Valid() && right.Valid() && a == AllPairs(probe, left) && b == AllPairs(probe, right)
    requires BothSoFar(probe, left, right, projections, outputs, l, r, page, Rows(probe.columns), l + |a|, r + |b|)
    ensures Fits(page, projections, l + |a|)
    ensures var once := Written(page, projections, probe.columns, left.columns, l, a);
            Fits(once, projections, r + |b|)
            && Holds(outputs, Written(once, projections, probe.columns, right.columns, r, b))
  {
    hide Written, Holds, JoinSide.Valid, Rows, JoinSide.KeyRows;
  }

  ghost function FactsTable(facts: seq<seq<Value>>, positives: seq<seq<Value>>, negatives: seq<seq<Value>>,
                            unbound: seq<nat>,
                            page: seq<seq<Value>>, left: seq<TidPair>, right: seq<TidPair>): (columns: seq<seq<Value>>)
    requires var projections := FactsProbeProjections(|positives|, |facts|, unbound);
             && Fits(page, projections, 0 + |left|)
             && Fits(Written(page, projections, facts, positives, 0, left), projections, |left| + |right|)
  {
    var projections := FactsProbeProjections(|positives|, |facts|, unbound);
    Written(Written(page, projections, facts, positives, 0, left), projections, facts, negatives, |left|, right)
  }

  lemma FactsTableIs(facts: seq<seq<Value>>, positives: seq<seq<Value>>, negatives: seq<seq<Value>>, unbound: seq<nat>,
                     page: seq<seq<Value>>, left: seq<TidPair>, right: seq<TidPair>)
    requires var projections := FactsProbeProjections(|positives|, |facts|, unbound);
             && Fits(page, projections, 0 + |left|)
             && Fits(Written(page, projections, facts, positives, 0, left), projections, |left| + |right|)
    ensures var projections := FactsProbeProjections(|positives|, |facts|, unbound);
            FactsTable(facts, positives, negatives, unbound, page, left, right)
            == Written(Written(page, projections, facts, positives, 0, left), projections, facts, negatives, |left|,
                       right)
  {
    hide Written, Fits;
  }

  lemma FactsTableFilled(facts: seq<seq<Value>>, positives: seq<seq<Value>>, negatives: seq<seq<Value>>,
                         unbound: seq<nat>,
                         page: seq<seq<Value>>, left: seq<TidPair>, right: seq<TidPair>)
    requires |positives| == |negatives| && |page| == |positives| + |unbound|
    requires forall c | 0 <= c < |page| :: |page[c]| == |left| + |right|
    requires forall j | 0 <= j < |unbound| :: unbound[j] < |facts|
    ensures Fits(page, FactsProbeProjections(|positives|, |facts|, unbound), 0 + |left|)
    ensures Fits(Written(page, FactsProbeProjections(|positives|, |facts|, unbound), facts, positives, 0, left),
                 FactsProbeProjections(|positives|, |facts|, unbound), |left| + |right|)
    ensures var columns := FactsTable(facts, positives, negatives, unbound, page, left, right);
            |columns| == |page| && forall c | 0 <= c < |columns| ::
              columns[c]
                  == Extended(c, facts, positives, unbound, AsPairs(left, true))
                     + Extended(c, facts, negatives, unbound, AsPairs(right, true))
  {
    hide Projected, Spliced, Extended, AsPairs;
    forall c | 0 <= c < |page|
      ensures FactsTable(facts, positives, negatives, unbound, page, left, right)[c]
              == Extended(c, facts, positives, unbound, AsPairs(left, true))
                 + Extended(c, facts, negatives, unbound, AsPairs(right, true))
    {
      FactsProbeColumn(facts, positives, negatives, unbound, left, right, page[c], c);
    }
  }

  lemma TableFrom(columns: seq<seq<Value>>, facts: seq<seq<Value>>, data: BindingData, vars: Variables,
                  positive: seq<Pair>, negative: seq<Pair>)
    requires Enumerated(positive, facts, data.Positive(), vars) && Enumerated(negative, facts, data.Negative(), vars)
    requires |columns| == |data.Positive()| + |Unbound(vars, |vars|)|
    requires forall c | 0 <= c < |columns| ::
               columns[c] == Extended(c, facts, data.Positive(), Unbound(vars, |vars|), positive)
                             + Extended(c, facts, data.Negative(), Unbound(vars, |vars|), negative)
    ensures IsBindingTable(columns, facts, data, vars, positive, negative)
  {
    hide Enumerated, Extended, BindingData.Positive, BindingData.Negative;
  }

  lemma FactsProbeColumn(facts: seq<seq<Value>>, positives: seq<seq<Value>>, negatives: seq<seq<Value>>,
                         unbound: seq<nat>,
                         left: seq<TidPair>, right: seq<TidPair>, before: seq<Value>, c: nat)
    requires |positives| == |negatives| && |before| == |left| + |right|
    requires c < |positives| + |unbound| && forall j | 0 <= j < |unbound| :: unbound[j] < |facts|
    ensures var column := FactsProbeProjections(|positives|, |facts|, unbound)[c];
            Spliced(Spliced(before, 0, Projected(column, facts, positives, left)), |left|,
                    Projected(column, facts, negatives, right))
            == Extended(c, facts, positives, unbound, AsPairs(left, true))
               + Extended(c, facts, negatives, unbound, AsPairs(right, true))
  {
    hide Projected, Spliced, Extended, AsPairs;
    var column := FactsProbeProjections(|positives|, |facts|, unbound)[c];
    FactsProbeProject(facts, positives, unbound, left, c);
    FactsProbeProject(facts, negatives, unbound, right, c);
    FilledPage(before, Projected(column, facts, positives, left), Projected(column, facts, negatives, right));
  }

  /** The bindings probe one hash table over the facts, positives first. */
  method ProbeWithBindings(facts: seq<seq<Value>>, data: BindingData, vars: Variables, numPositive: nat,
                           hashing: Hashing, chunkSize: nat,
                           outputs: seq<array<Value>>, ghost numNegative: nat, ghost page: seq<seq<Value>>)
    returns (ghost columns: seq<seq<Value>>, ghost positive: seq<Pair>, ghost negative: seq<Pair>)
    requires Extendable(facts, data, vars) && chunkSize > 0 && 0 < Rows(facts) <= Pow2(30)
    requires DistinctBuffers(outputs) && Holds(outputs, page) && Room(page, facts, data, vars, numPositive, numNegative)
    modifies set i | 0 <= i < |outputs| :: outputs[i]
    ensures Holds(outputs, columns) && IsBindingTable(columns, facts, data, vars, positive, negative)
  {
    hide *;
    var positives, negatives := data.Positive(), data.Negative();
    var unbound := Unbound(vars, |vars|);
    BindingsProbeRoom(facts, data, vars, numPositive, numNegative, page);
    var left, right, build := BindingSide(positives, vars), BindingSide(negatives, vars), FactSide(facts, vars);
    var table := BuildOn(build, hashing);
    AreJoinable(left, build, table, hashing);
    AreJoinable(right, build, table, hashing);
    var projections := BindingsProbeProjections(|positives|, unbound);
    JoinImpl(left, build, table, hashing, projections, Populate(true, unbound != []), chunkSize, outputs, 0, page);
    ghost var once := Written(page, projections, left.columns, build.columns, 0, AllPairs(left, build));
    FitsSame(page, once, projections, numPositive + |AllPairs(right, build)|);
    JoinImpl(right, build, table, hashing, projections, Populate(true, unbound != []), chunkSize, outputs, numPositive,
             once);
    positive, negative := AsPairs(AllPairs(left, build), false), AsPairs(AllPairs(right, build), false);
    columns := Written(once, projections, right.columns, build.columns, numPositive, AllPairs(right, build));
    BindingsProbeTable(facts, data, vars, page, AllPairs(left, build), AllPairs(right, build));
    BindingsTableIs(facts, positives, negatives, unbound, page, AllPairs(left, build), AllPairs(right, build));
  }

  lemma BindingsProbeRoom(facts: seq<seq<Value>>, data: BindingData, vars: Variables, numPositive: nat,
                          numNegative: nat, page: seq<seq<Value>>)
    requires Extendable(facts, data, vars) && Room(page, facts, data, vars, numPositive, numNegative)
    ensures var positives, negatives, unbound := data.Positive(), data.Negative(), Unbound(vars, |vars|);
            var left, right, build := BindingSide(positives, vars), BindingSide(negatives, vars), FactSide(facts, vars);
            var projections := BindingsProbeProjections(|positives|, unbound);
            && left.Valid() && right.Valid() && build.Valid() && |build.keys| == |left.keys| == |right.keys|
            && build.columns == facts && left.columns == positives && right.columns == negatives
            && |positives| == |negatives|
            && |AllPairs(left, build)| == numPositive && |AllPairs(right, build)| == numNegative
            && ProjectionsOk(projections, |positives|, |facts|, Populate(true, unbound != []))
            && Fits(page, projections, 0 + |AllPairs(left, build)|)
            && Fits(page, projections, numPositive + |AllPairs(right, build)|)
            && Enumerated(AsPairs(AllPairs(left, build), false), facts, positives, vars)
            && Enumerated(AsPairs(AllPairs(right, build), false), facts, negatives, vars)
  {
    hide Enumerated, Witnesses, ProjectionsOk, AllPairs, Bound, BindingData.Positive, BindingData.Negative,
        JoinSide.Valid;
    var positives, negatives := data.Positive(), data.Negative();
    BindingsProbe(facts, positives, vars);
    BindingsProbe(facts, negatives, vars);
    ProjectionsFit(facts, positives, vars);
  }

  lemma BindingsProbeTable(facts: seq<seq<Value>>, data: BindingData, vars: Variables, page: seq<seq<Value>>,
                           left: seq<TidPair>, right: seq<TidPair>)
    requires Extendable(facts, data, vars) && Room(page, facts, data, vars, |left|, |right|)
    requires Enumerated(AsPairs(left, false), facts, data.Positive(), vars)
    requires Enumerated(AsPairs(right, false), facts, data.Negative(), vars)
    ensures var projections := BindingsProbeProjections(|data.Positive()|, Unbound(vars, |vars|));
            && Fits(page, projections, 0 + |left|)
            && Fits(Written(page, projections, data.Positive(), facts, 0, left), projections, |left| + |right|)
            && IsBindingTable(BindingsTable(facts, data.Positive(), data.Negative(), Unbound(vars, |vars|), page, left,
                                            right),
                              facts, data, vars, AsPairs(left, false), AsPairs(right, false))
  {
    hide *;
    RoomIs(facts, data, vars, |left|, |right|, page);
    BindingsTableFilled(facts, data.Positive(), data.Negative(), Unbound(vars, |vars|), page, left, right);
    TableFrom(BindingsTable(facts, data.Positive(), data.Negative(), Unbound(vars, |vars|), page, left, right),
              facts, data, vars, AsPairs(left, false), AsPairs(right, false));
  }

  ghost function BindingsTable(facts: seq<seq<Value>>, positives: seq<seq<Value>>, negatives: seq<seq<Value>>,
                               unbound: seq<nat>,
                               page: seq<seq<Value>>, left: seq<TidPair>,
                                   right: seq<TidPair>): (columns: seq<seq<Value>>)
    requires var projections := BindingsProbeProjections(|positives|, unbound);
             && Fits(page, projections, 0 + |left|)
             && Fits(Written(page, projections, positives, facts, 0, left), projections, |left| + |right|)
  {
    var projections := BindingsProbeProjections(|positives|, unbound);
    Written(Written(page, projections, positives, facts, 0, left), projections, negatives, facts, |left|, right)
  }

  lemma BindingsTableIs(facts: seq<seq<Value>>, positives: seq<seq<Value>>, negatives: seq<seq<Value>>,
                        unbound: seq<nat>,
                        page: seq<seq<Value>>, left: seq<TidPair>, right: seq<TidPair>)
    requires var projections := BindingsProbeProjections(|positives|, unbound);
             && Fits(page, projections, 0 + |left|)
             && Fits(Written(page, projections, positives, facts, 0, left), projections, |left| + |right|)
    ensures var projections := BindingsProbeProjections(|positives|, unbound);
            BindingsTable(facts, positives, negatives, unbound, page, left, right)
            == Written(Written(page, projections, positives, facts, 0, left), projections, negatives, facts, |left|,
                       right)
  {
    hide Written, Fits;
  }

  lemma BindingsTableFilled(facts: seq<seq<Value>>, positives: seq<seq<Value>>, negatives: seq<seq<Value>>,
                            unbound: seq<nat>,
                            page: seq<seq<Value>>, left: seq<TidPair>, right: seq<TidPair>)
    requires |positives| == |negatives| && |page| == |positives| + |unbound|
    requires forall c | 0 <= c < |page| :: |page[c]| == |left| + |right|
    requires forall j | 0 <= j < |unbound| :: unbound[j] < |facts|
    ensures Fits(page, BindingsProbeProjections(|positives|, unbound), 0 + |left|)
    ensures Fits(Written(page, BindingsProbeProjections(|positives|, unbound), positives, facts, 0, left),
                 BindingsProbeProjections(|positives|, unbound), |left| + |right|)
    ensures var columns := BindingsTable(facts, positives, negatives, unbound, page, left, right);
            |columns| == |page| && forall c | 0 <= c < |columns| ::
              columns[c]
                  == Extended(c, facts, positives, unbound, AsPairs(left, false))
                     + Extended(c, facts, negatives, unbound, AsPairs(right, false))
  {
    hide Projected, Spliced, Extended, AsPairs;
    forall c | 0 <= c < |page|
      ensures BindingsTable(facts, positives, negatives, unbound, page, left, right)[c]
              == Extended(c, facts, positives, unbound, AsPairs(left, false))
                 + Extended(c, facts, negatives, unbound, AsPairs(right, false))
    {
      BindingsProbeColumn(facts, positives, negatives, unbound, left, right, page[c], c);
    }
  }

  lemma BindingsProbeColumn(facts: seq<seq<Value>>, positives: seq<seq<Value>>, negatives: seq<seq<Value>>,
                            unbound: seq<nat>,
                            left: seq<TidPair>, right: seq<TidPair>, before: seq<Value>, c: nat)
    requires |positives| == |negatives| && |before| == |left| + |right|
    requires c < |positives| + |unbound| && forall j | 0 <= j < |unbound| :: unbound[j] < |facts|
    ensures var column := BindingsProbeProjections(|positives|, unbound)[c];
            Spliced(Spliced(before, 0, Projected(column, positives, facts, left)), |left|,
                    Projected(column, negatives, facts, right))
            == Extended(c, facts, positives, unbound, AsPairs(left, false))
               + Extended(c, facts, negatives, unbound, AsPairs(right, false))
  {
    hide Projected, Spliced, Extended, AsPairs;
    var column := BindingsProbeProjections(|positives|, unbound)[c];
    BindingsProbeProject(facts, positives, unbound, left, c);
    BindingsProbeProject(facts, negatives, unbound, right, c);
    FilledPage(before, Projected(column, positives, facts, left), Projected(column, negatives, facts, right));
  }

  // ---------------------------------------------------------------------
  // Building the new table
  // ---------------------------------------------------------------------

  method NewBuffers(count: nat, length: nat) returns (outputs: seq<array<Value>>, ghost page: seq<seq<Value>>)
    ensures |outputs| == count && DistinctBuffers(outputs) && Holds(outputs, page)
    ensures forall i | 0 <= i < count :: fresh(outputs[i]) && |page[i]| == length
  {
    outputs, page := [], [];
    for i := 0 to count
      invariant |outputs| == |page| == i && DistinctBuffers(outputs)
      invariant forall j | 0 <= j < i :: fresh(outputs[j]) && outputs[j][..] == page[j] && outputs[j].Length == length
    {
      var buffer := new Value[length];
      outputs, page := outputs + [buffer], page + [buffer[..]];
    }
  }

  /** Whichever table gets the hash table must not be empty. */
  ghost predicate HashTablesFit(facts: seq<seq<Value>>, data: BindingData) {
    if Rows(data.Positive()) < Rows(facts) && Rows(data.Negative()) < Rows(facts)
    then 0 < Rows(data.Positive()) <= Pow2(30) && 0 < Rows(data.Negative()) <= Pow2(30)
    else 0 < Rows(facts) <= Pow2(30)
  }

  /** With the counts of the literal as sizes, the new table is exactly the join
      of the bindings with the facts, positives in front. */
  method CreateLabelAwareBindingTables(facts: seq<seq<Value>>, data: BindingData, vars: Variables, numPositive: nat,
                                       numNegative: nat,
                                       hashing: Hashing, chunkSize: nat)
    returns (columns: seq<seq<Value>>, ghost positive: seq<Pair>, ghost negative: seq<Pair>)
    requires Extendable(facts, data, vars) && chunkSize > 0 && HashTablesFit(facts, data)
    requires numPositive == |Witnesses(facts, data.Positive(), vars)|
             && numNegative == |Witnesses(facts, data.Negative(), vars)|
    ensures IsBindingTable(columns, facts, data, vars, positive, negative) && HoldsBindings(columns, facts, data, vars)
  {
    var positives, negatives := data.Positive(), data.Negative();
    var count := |positives| + |Unbound(vars, |vars|)|;
    var outputs, page := NewBuffers(count, numPositive + numNegative);
    assert Room(page, facts, data, vars, numPositive, numNegative);
    hide Extendable, IsBindingTable, Room, Witnesses, Rows, Pow2, DistinctBuffers;
    ghost var result: seq<seq<Value>>;
    if Rows(positives) < Rows(facts) && Rows(negatives) < Rows(facts) {
      result, positive, negative :=
        ProbeWithFacts(facts, data, vars, numPositive, hashing, chunkSize, outputs, numNegative, page);
    } else {
      result, positive, negative :=
        ProbeWithBindings(facts, data, vars, numPositive, hashing, chunkSize, outputs, numNegative, page);
    }
    columns := ReadBuffers(outputs, result);
  }

  method ReadBuffers(outputs: seq<array<Value>>, ghost page: seq<seq<Value>>) returns (columns: seq<seq<Value>>)
    requires Holds(outputs, page)
    ensures columns == page
  {
    columns := [];
    for i := 0 to |outputs|
      invariant columns == page[..i]
    {
      columns := columns + [outputs[i][..]];
    }
  }

  /** The two strategies give the same multiset of rows on either side. */
  lemma StrategiesAgree(facts: seq<seq<Value>>, bindings: seq<seq<Value>>, vars: Variables)
    requires LiteralFits(facts, bindings, vars)
    ensures FactSide(facts, vars).Valid() && BindingSide(bindings, vars).Valid()
    ensures multiset(AsPairs(AllPairs(FactSide(facts, vars), BindingSide(bindings, vars)), true))
         == multiset(AsPairs(AllPairs(BindingSide(bindings, vars), FactSide(facts, vars)), false))
  {
    FactsProbe(facts, bindings, vars);
    BindingsProbe(facts, bindings, vars);
    SameMultiset(AsPairs(AllPairs(FactSide(facts, vars), BindingSide(bindings, vars)), true),
                 AsPairs(AllPairs(BindingSide(bindings, vars), FactSide(facts, vars)), false));
  }

  /** BuildHashTableOnTable. */
  method BuildOn(side: JoinSide, hashing: Hashing) returns (table: FoilHashTable)
    requires side.Valid() && 0 < Rows(side.columns) <= Pow2(30)
    ensures Indexes(table, side.KeyRows(), hashing.OfKey())
  {
    hide Indexes, Pow2, IsLeastPow2, JoinSide.Valid, Rows;
    var rows := RowKeys(side);
    table := BuildHashTable(rows, hashing.OfKey(), 0);
  }

  /** The key of every row. */
  method RowKeys(side: JoinSide) returns (rows: seq<Key>)
    requires side.Valid()
    ensures rows == side.KeyRows()
  {
    rows := [];
    for tid := 0 to Rows(side.columns)
      invariant |rows| == tid && forall i | 0 <= i < tid :: rows[i] == side.KeyRows()[i]
    {
      var key := RowKey(side, tid);
      rows := rows + [key];
    }
  }

  method RowKey(side: JoinSide, tid: nat) returns (key: Key)
    requires side.Valid() && tid < Rows(side.columns)
    ensures key == side.KeyRows()[tid]
  {
    side.ColumnsHaveRows();
    side.KeyOfRow(tid);
    hide JoinSide.KeyRows;
    key := seq(|side.keys|, i requires 0 <= i < |side.keys|
               && tid < |side.columns[side.keys[i]]| => side.columns[side.keys[i]][tid]);
    assert key == KeyAt(side.KeyValues(), tid);
  }

  // ---------------------------------------------------------------------
  // CreateBindingTable: no counts are known, so the buffers grow
  // ---------------------------------------------------------------------

  /** A variable of a bound literal counts as unbound while the table has no
      column for it. */
  function Known(vars: Variables, numColumns: nat): (known: Variables)
    ensures |known| == |vars| && forall i | 0 <= i < |vars| :: known[i] == if vars[i] < numColumns then vars[i] else -1
  {
    seq(|vars|, i requires 0 <= i < |vars| => if vars[i] < numColumns then vars[i] else -1)
  }

  /** All buffers are equally long, and start with the projections of the pairs. */
  ghost predicate StartsWith(outputs: seq<array<Value>>, length: nat, projections: seq<nat>, probe: JoinSide,
                             build: JoinSide, pairs: seq<TidPair>)
    reads set i | 0 <= i < |outputs| :: outputs[i]
  {
    && |outputs| == |projections| && |pairs| <= length
    && forall i | 0 <= i < |outputs| ::
         outputs[i].Length == length
         && outputs[i][..|pairs|] == Projected(projections[i], probe.columns, build.columns, pairs)
  }

  /** Realloc: longer or shorter buffers with the same beginning. */
  method Realloc(outputs: seq<array<Value>>, length: nat, kept: nat, ghost oldLength: nat,
                 ghost projections: seq<nat>, ghost probe: JoinSide, ghost build: JoinSide, ghost pairs: seq<TidPair>)
    returns (grown: seq<array<Value>>)
    requires StartsWith(outputs, oldLength, projections, probe, build, pairs) && kept == |pairs| <= length
    ensures StartsWith(grown, length, projections, probe, build, pairs)
    ensures DistinctBuffers(grown) && forall i | 0 <= i < |grown| :: fresh(grown[i])
  {
    hide Projected;
    grown := [];
    for i := 0 to |outputs|
      invariant |grown| == i && DistinctBuffers(grown)
      invariant forall j | 0 <= j < i ::
                  fresh(grown[j]) && grown[j].Length == length && grown[j][..kept] == outputs[j][..kept]
      invariant StartsWith(outputs, oldLength, projections, probe, build, pairs)
    {
      var copy := CopyOf(outputs[i], length, kept);
      grown := grown + [copy];
    }
  }

  method CopyOf(source: array<Value>, length: nat, kept: nat) returns (copy: array<Value>)
    requires kept <= source.Length && kept <= length
    ensures fresh(copy) && copy.Length == length && copy[..kept] == source[..kept]
  {
    copy := new Value[length];
    for k := 0 to kept
      invariant forall j | 0 <= j < k :: copy[j] == source[j]
    {
      copy[k] := source[k];
    }
  }

  lemma SplicedPrefix(s: seq<Value>, pos: nat, values: seq<Value>)
    requires pos + |values| <= |s|
    ensures Spliced(s, pos, values)[..pos + |values|] == s[..pos] + values
  {
  }

  /** The whole join into growing buffers, cut to its size at the end. */
  method JoinGrowing(probe: JoinSide, build: JoinSide, table: FoilHashTable, hashing: Hashing, projections: seq<nat>,
                     populate: Populate, chunkSize: nat, initialSize: nat)
    returns (columns: seq<seq<Value>>)
    requires Joinable(probe, build, table, hashing) && chunkSize > 0 && (populate.probe || populate.build)
    requires probe.Valid() && build.Valid()
    requires ProjectionsOk(projections, |probe.columns|, |build.columns|, populate) && projections != []
    ensures |columns| == |projections|
    ensures forall i | 0 <= i < |columns| ::
              columns[i] == Projected(projections[i], probe.columns, build.columns, AllPairs(probe, build))
  {
    hide *;
    var total := Rows(probe.columns);
    var outputs, page := NewBuffers(|projections|, initialSize);
    var length, probeOffset, outputOffset := initialSize, 0, 0;
    ghost var joined := 0;
    NothingProjected(projections, probe, build, outputs, page, length);
    while probeOffset < total
      invariant joined == if probeOffset < total then probeOffset else total
      invariant DistinctBuffers(outputs) && forall i | 0 <= i < |outputs| :: fresh(outputs[i])
      invariant outputOffset == |PairsUpTo(probe, build, joined)|
      invariant StartsWith(outputs, length, projections, probe, build, PairsUpTo(probe, build, joined))
      decreases total - probeOffset
    {
      var blockSize := if chunkSize < total - probeOffset then chunkSize else total - probeOffset;
      outputs, length, outputOffset :=
        JoinGrowingBlock(probe, build, table, hashing, projections, populate, probeOffset, blockSize, outputs, length,
                         outputOffset);
      probeOffset := probeOffset + chunkSize;
      joined := joined + blockSize;
    }
    EverythingProjected(probe, build);
    outputs := Realloc(outputs, outputOffset, outputOffset, length, projections, probe, build,
                       PairsUpTo(probe, build, total));
    columns := ReadProjections(outputs, outputOffset, projections, probe, build);
  }

  lemma NothingProjected(projections: seq<nat>, probe: JoinSide, build: JoinSide, outputs: seq<array<Value>>,
                         page: seq<seq<Value>>, length: nat)
    requires probe.Valid() && build.Valid() && Holds(outputs, page) && |outputs| == |projections|
    requires forall i | 0 <= i < |outputs| :: |page[i]| == length
    ensures PairsUpTo(probe, build, 0) == []
            && StartsWith(outputs, length, projections, probe, build, PairsUpTo(probe, build, 0))
  {
    hide JoinSide.KeyRows, JoinSide.Valid;
    forall i | 0 <= i < |outputs|
      ensures outputs[i].Length == length
              && outputs[i][..0] == Projected(projections[i], probe.columns, build.columns, [])
    {
      assert |outputs[i][..]| == |page[i]|;
    }
  }

  lemma EverythingProjected(probe: JoinSide, build: JoinSide)
    requires probe.Valid() && build.Valid()
    ensures PairsUpTo(probe, build, Rows(probe.columns)) == AllPairs(probe, build)
  {
  }

  method ReadProjections(outputs: seq<array<Value>>, length: nat, ghost projections: seq<nat>, ghost probe: JoinSide,
                         ghost build: JoinSide)
    returns (columns: seq<seq<Value>>)
    requires probe.Valid() && build.Valid() && length == |AllPairs(probe, build)|
    requires StartsWith(outputs, length, projections, probe, build, AllPairs(probe, build))
    ensures |columns| == |projections|
    ensures forall i | 0 <= i < |columns| ::
              columns[i] == Projected(projections[i], probe.columns, build.columns, AllPairs(probe, build))
  {
    hide Projected, AllPairs, JoinSide.Valid;
    columns := [];
    for i := 0 to |outputs|
      invariant |columns| == i
      invariant forall j | 0 <= j < i ::
                  columns[j] == Projected(projections[j], probe.columns, build.columns, AllPairs(probe, build))
    {
      assert outputs[i][..] == outputs[i][..length];
      columns := columns + [outputs[i][..]];
    }
  }

  method JoinGrowingBlock(probe: JoinSide, build: JoinSide, table: FoilHashTable, hashing: Hashing,
                          projections: seq<nat>,
                          populate: Populate, start: nat, blockSize: nat, outputs: seq<array<Value>>, length: nat,
                              outputOffset: nat)
    returns (outputs': seq<array<Value>>, length': nat, outputOffset': nat)
    requires Joinable(probe, build, table, hashing) && (populate.probe || populate.build)
    requires probe.Valid() && build.Valid() && start + blockSize <= Rows(probe.columns)
    requires ProjectionsOk(projections, |probe.columns|, |build.columns|, populate) && projections != []
    requires DistinctBuffers(outputs) && outputOffset == |PairsUpTo(probe, build, start)|
    requires StartsWith(outputs, length, projections, probe, build, PairsUpTo(probe, build, start))
    modifies set i | 0 <= i < |outputs| :: outputs[i]
    ensures DistinctBuffers(outputs') && forall i | 0 <= i < |outputs'| :: outputs' == outputs || fresh(outputs'[i])
    ensures outputOffset' == |PairsUpTo(probe, build, start + blockSize)|
    ensures StartsWith(outputs', length', projections, probe, build, PairsUpTo(probe, build, start + blockSize))
  {
    hide Joinable, JoinSide.Valid, ProjectionsOk, Rows, Projected, PairsUpTo, AllPairs, Spliced;
    var probeTids, buildTids, pairs := JoinBlock(probe, build, table, hashing, populate, start, blockSize);
    NumResults(populate, probeTids, buildTids, start, pairs);
    var numResults := if populate.build then |buildTids| else |probeTids|;
    outputs', length' := outputs, length;
    if outputs'[0].Length < outputOffset + numResults {
      var larger := outputs'[0].Length * 3 / 2;
      length' := if larger < outputOffset + numResults then outputOffset + numResults else larger;
      outputs' := Realloc(outputs, length', outputOffset, length, projections, probe, build,
                          PairsUpTo(probe, build, start));
    }
    AppendBlock(probe, build, projections, populate, start, outputs', length', outputOffset, probeTids, buildTids,
                PairsUpTo(probe, build, start), pairs);
    outputOffset' := outputOffset + numResults;
  }

  ghost function PageOf(outputs: seq<array<Value>>): (page: seq<seq<Value>>)
    reads set i | 0 <= i < |outputs| :: outputs[i]
    ensures Holds(outputs, page)
  {
    if outputs == [] then [] else PageOf(outputs[..|outputs| - 1]) + [outputs[|outputs| - 1][..]]
  }

  method AppendBlock(probe: JoinSide, build: JoinSide, projections: seq<nat>, ghost populate: Populate, start: nat,
                     outputs: seq<array<Value>>,
                     ghost length: nat, outputOffset: nat, probeTids: seq<nat>, buildTids: seq<nat>,
                         ghost soFar: seq<TidPair>, ghost pairs: seq<TidPair>)
    requires DistinctBuffers(outputs) && StartsWith(outputs, length, projections, probe, build, soFar)
    requires outputOffset == |soFar| && outputOffset + |pairs| <= length
    requires ProjectionsOk(projections, |probe.columns|, |build.columns|, populate)
    requires InTables(probe.columns, build.columns, pairs) && Populated(populate, probeTids, buildTids, start, pairs)
    modifies set i | 0 <= i < |outputs| :: outputs[i]
    ensures StartsWith(outputs, length, projections, probe, build, soFar + pairs)
  {
    hide Projected, Spliced, ProjectionsOk, InTables, Populated;
    ghost var page := PageOf(outputs);
    assert |outputs| == |projections| && forall i | 0 <= i < |outputs| :: outputs[i].Length == length;
    WriteBlock(projections, probe.columns, build.columns, start, probeTids, buildTids, outputOffset, outputs, populate,
               pairs, page);
    forall i | 0 <= i < |outputs|
      ensures outputs[i][..|soFar + pairs|] == Projected(projections[i], probe.columns, build.columns, soFar + pairs)
    {
      ProjectedConcat(projections[i], probe.columns, build.columns, soFar, pairs);
      SplicedPrefix(page[i], outputOffset, Projected(projections[i], probe.columns, build.columns, pairs));
    }
  }

  /** The row the table is extended by, in either strategy. */
  ghost predicate IsJoinedTable(columns: seq<seq<Value>>, facts: seq<seq<Value>>, bindings: seq<seq<Value>>,
                                vars: Variables, pairs: seq<Pair>) {
    && Enumerated(pairs, facts, bindings, vars)
    && |columns| == |bindings| + |Unbound(vars, |vars|)|
    && forall c | 0 <= c < |columns| :: columns[c] == Extended(c, facts, bindings, Unbound(vars, |vars|), pairs)
  }

  method CreateBindingTable(facts: seq<seq<Value>>, bindings: seq<seq<Value>>, variables: Variables, hashing: Hashing,
                            chunkSize: nat)
    returns (columns: seq<seq<Value>>, ghost pairs: seq<Pair>)
    requires LiteralFits(facts, bindings, Known(variables, |bindings|)) && chunkSize > 0
    requires if Rows(facts) < Rows(bindings) then 0 < Rows(facts) <= Pow2(30) else 0 < Rows(bindings) <= Pow2(30)
    ensures IsJoinedTable(columns, facts, bindings, Known(variables, |bindings|), pairs)
    ensures HoldsJoin(columns, facts, bindings, Known(variables, |bindings|))
  {
    hide *;
    var vars := Known(variables, |bindings|);
    var unbound := Unbound(vars, |vars|);
    CanJoin(facts, bindings, vars);
    var factSide, bindingSide := FactSide(facts, vars), BindingSide(bindings, vars);
    if Rows(facts) < Rows(bindings) {
      var table := BuildOn(factSide, hashing);
      AreJoinable(bindingSide, factSide, table, hashing);
      columns := JoinGrowing(bindingSide, factSide, table, hashing, BindingsProbeProjections(|bindings|, unbound),
                             Populate(true, unbound != []), chunkSize, Rows(bindings));
      pairs := AsPairs(AllPairs(bindingSide, factSide), false);
      JoinedByBindings(facts, bindings, vars, columns);
    } else {
      var table := BuildOn(bindingSide, hashing);
      AreJoinable(factSide, bindingSide, table, hashing);
      columns := JoinGrowing(factSide, bindingSide, table, hashing, FactsProbeProjections(|bindings|, |facts|, unbound),
                             Populate(unbound != [], true), chunkSize, Rows(bindings));
      pairs := AsPairs(AllPairs(factSide, bindingSide), true);
      JoinedByFacts(facts, bindings, vars, columns);
    }
    JoinIsHeld(columns, facts, bindings, vars, pairs);
  }

  ghost predicate HoldsJoin(columns: seq<seq<Value>>, facts: seq<seq<Value>>, bindings: seq<seq<Value>>,
                            vars: Variables) {
    exists pairs :: IsJoinedTable(columns, facts, bindings, vars, pairs)
  }

  lemma JoinIsHeld(columns: seq<seq<Value>>, facts: seq<seq<Value>>, bindings: seq<seq<Value>>, vars: Variables,
                   pairs: seq<Pair>)
    requires IsJoinedTable(columns, facts, bindings, vars, pairs)
    ensures HoldsJoin(columns, facts, bindings, vars)
  {
    hide IsJoinedTable;
  }

  lemma CanJoin(facts: seq<seq<Value>>, bindings: seq<seq<Value>>, vars: Variables)
    requires LiteralFits(facts, bindings, vars)
    ensures var unbound, factSide, bindingSide := Unbound(vars, |vars|), FactSide(facts, vars),
            BindingSide(bindings, vars);
            && factSide.Valid() && bindingSide.Valid() && |factSide.keys| == |bindingSide.keys|
            && factSide.columns == facts && bindingSide.columns == bindings
            && BindingsProbeProjections(|bindings|, unbound) != []
            && FactsProbeProjections(|bindings|, |facts|, unbound) != []
            && ProjectionsOk(FactsProbeProjections(|bindings|, |facts|, unbound), |facts|, |bindings|,
                             Populate(unbound != [], true))
            && ProjectionsOk(BindingsProbeProjections(|bindings|, unbound), |bindings|, |facts|,
                             Populate(true, unbound != []))
  {
    SidesAreValid(facts, bindings, vars);
    ProjectionsFit(facts, bindings, vars);
    hide ProjectionsOk;
    assert bindings != [];
    assert |BindingsProbeProjections(|bindings|, Unbound(vars, |vars|))| > 0;
  }

  lemma JoinedByBindings(facts: seq<seq<Value>>, bindings: seq<seq<Value>>, vars: Variables, columns: seq<seq<Value>>)
    requires LiteralFits(facts, bindings, vars) && FactSide(facts, vars).Valid() && BindingSide(bindings, vars).Valid()
    requires var projections := BindingsProbeProjections(|bindings|, Unbound(vars, |vars|));
             && |columns| == |projections|
             && forall i | 0 <= i < |columns| :: columns[i] == Projected(projections[i], bindings, facts,
                                                                       AllPairs(BindingSide(bindings, vars),
                                                                           FactSide(facts, vars)))
    ensures IsJoinedTable(columns, facts, bindings, vars,
                          AsPairs(AllPairs(BindingSide(bindings, vars), FactSide(facts, vars)), false))
  {
    BindingsProbe(facts, bindings, vars);
    assert |vars| == |facts|;
    hide AllPairs, Projected, Extended, Enumerated, LiteralFits;
    forall c | 0 <= c < |columns|
      ensures columns[c] == Extended(c, facts, bindings, Unbound(vars, |vars|),
                                     AsPairs(AllPairs(BindingSide(bindings, vars), FactSide(facts, vars)), false))
    {
      BindingsProbeProject(facts, bindings, Unbound(vars, |vars|),
                           AllPairs(BindingSide(bindings, vars), FactSide(facts, vars)), c);
    }
  }

  lemma JoinedByFacts(facts: seq<seq<Value>>, bindings: seq<seq<Value>>, vars: Variables, columns: seq<seq<Value>>)
    requires LiteralFits(facts, bindings, vars) && FactSide(facts, vars).Valid() && BindingSide(bindings, vars).Valid()
    requires var projections := FactsProbeProjections(|bindings|, |facts|, Unbound(vars, |vars|));
             && |columns| == |projections|
             && forall i | 0 <= i < |columns| :: columns[i] == Projected(projections[i], facts, bindings,
                                                                       AllPairs(FactSide(facts, vars),
                                                                           BindingSide(bindings, vars)))
    ensures IsJoinedTable(columns, facts, bindings, vars,
                          AsPairs(AllPairs(FactSide(facts, vars), BindingSide(bindings, vars)), true))
  {
    FactsProbe(facts, bindings, vars);
    assert |vars| == |facts|;
    hide AllPairs, Projected, Extended, Enumerated, LiteralFits;
    forall c | 0 <= c < |columns|
      ensures columns[c] == Extended(c, facts, bindings, Unbound(vars, |vars|),
                                     AsPairs(AllPairs(FactSide(facts, vars), BindingSide(bindings, vars)), true))
    {
      FactsProbeProject(facts, bindings, Unbound(vars, |vars|),
                        AllPairs(FactSide(facts, vars), BindingSide(bindings, vars)), c);
    }
  }
}
