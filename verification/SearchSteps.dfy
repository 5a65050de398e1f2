/** A rule search as a sequence of steps on plain values: what one pass of the
    loops of QuickFoil::Learn does to the building state, the saved literals and
    the learnt clauses (learner/QuickFoil.cpp). */
module SearchSteps {
  import opened RadixPartition
  import opened PartitionAssigner
  import opened Tallies
  import opened Bindings
  import opened KeyColumns
  import opened MultiColumnJoin
  import opened BindingTables
  import opened Examples
  import opened FoilClauses
  import opened ClauseCoverage
  import opened UncoveredRows

  /** What never changes during a run. */
  datatype Task = Task(bg: Background, numArguments: nat, positives: seq<seq<Value>>, negatives: seq<seq<Value>>,
                       hashing: Hashing, joinChunkSize: nat, semiJoinChunkSize: nat)
  {
    ghost predicate Valid() {
      && 0 < numArguments == |positives| == |negatives| && Rectangular(positives) && Rectangular(negatives)
      && joinChunkSize > 0 && semiJoinChunkSize > 0
    }
  }

  /** An evaluated candidate literal with its binding counts. */
  datatype EvaluatedLiteral = EvaluatedLiteral(pred: nat, variables: Variables, numBindingPositive: nat,
                                               numBindingNegative: nat)

  /** The precision or F-score test on covered positives, covered negatives and
      uncovered examples. */
  type Acceptance = (nat, nat, nat) -> bool

  /** The best literal, and further ones that are as good. */
  datatype Chosen = Chosen(best: EvaluatedLiteral, ties: seq<EvaluatedLiteral>, isRandomLiteral: bool)

  /** The selection and its thresholds, which may depend on the step. */
  datatype Search = Search(select: (nat, Clause, BindingData) -> Option<Chosen>,
                           skip: (nat, Clause, EvaluatedLiteral) -> bool,
                           precise: (nat, EvaluatedLiteral) -> bool, accept: Acceptance,
                           maximumClauseLength: nat, maximumRandomLiterals: nat, maximumUncovered: nat,
                           maximumIterations: nat)
  {
    function LengthLimit(): (n: nat) {
      maximumClauseLength + maximumRandomLiterals
    }

    /** Whether a literal is tried as the last one of the clause. */
    predicate ConsidersAsLast(step: nat, c: Clause, literal: EvaluatedLiteral) {
      precise(step, literal) || |c.body| >= maximumClauseLength
    }
  }

  // ---------------------------------------------------------------------
  // Configurations
  // ---------------------------------------------------------------------

  /** A building state: its clause, its bindings, the examples it started from, and
      whether a restored literal is part of it. */
  datatype View = View(clause: Clause, data: BindingData, start: seq<seq<Value>>, fromTied: bool)

  datatype Saved = Saved(literal: EvaluatedLiteral, view: View)

  /** Selecting literals for the building clause; a pass of the outer loop is over;
      coming back to saved literals; the search has ended; it has been aborted. */
  datatype Phase = Selecting | PassOver | Returning | Finished | Failed

  datatype Config = Config(phase: Phase, building: Option<View>, saved: seq<Saved>, learnt: seq<Clause>, step: nat,
                           passes: nat)

  /** The examples of the rows that the clause covers. */
  ghost function NumCovered(bg: Background, rows: seq<Row>, c: Clause): (n: nat) {
    |set e | 0 <= e < |rows| && Covers(bg, c, rows[e])|
  }

  lemma {:induction false} CoveredAndUncovered(bg: Background, rows: seq<Row>, c: Clause)
    ensures NumCovered(bg, rows, c) == |rows| - |Uncovered(bg, rows, [c])|
  {
    if rows != [] {
      var init, last := rows[..|rows| - 1], rows[|rows| - 1];
      CoveredAndUncovered(bg, init, c);
      assert rows == init + [last];
      OneMoreCovered(bg, init, last, c);
      UncoveredSnoc(bg, init, last, [c]);
      OneClause(bg, c, last);
      hide *;
    }
  }

  lemma OneMoreCovered(bg: Background, rows: seq<Row>, row: Row, c: Clause)
    ensures NumCovered(bg, rows + [row], c) == NumCovered(bg, rows, c) + if Covers(bg, c, row) then 1 else 0
  {
    hide Covers;
    var more, n := rows + [row], |rows|;
    var before := set e | 0 <= e < |rows| && Covers(bg, c, rows[e]);
    var after := set e | 0 <= e < |more| && Covers(bg, c, more[e]);
    assert forall e | 0 <= e < n :: more[e] == rows[e];
    assert more[n] == row && after == if Covers(bg, c, row) then before + {n} else before;
  }

  lemma OneClause(bg: Background, c: Clause, row: Row)
    ensures CoveredByAny(bg, [c], row) <==> Covers(bg, c, row)
  {
    hide Covers;
    assert c in [c];
  }

  /** The test on the view's own examples and all negatives. */
  ghost predicate Accepts(task: Task, accept: Acceptance, v: View, literal: EvaluatedLiteral) {
    var c := Added(v.clause, literal.pred, literal.variables);
    accept(NumCovered(task.bg, RowsOf(v.start), c), NumCovered(task.bg, RowsOf(task.negatives), c), Rows(v.start))
  }

  /** The view extended by the literal: its clause and the joined bindings. */
  ghost predicate Extends(task: Task, v: View, literal: EvaluatedLiteral, isTied: bool, v': View) {
    && v'.clause == Added(v.clause, literal.pred, literal.variables)
    && v'.start == v.start && v'.fromTied == (isTied || v.fromTied)
    && v'.data.Consecutive? && v'.data.numPositive == literal.numBindingPositive
    && literal.pred < |task.bg| && HoldsBindings(v'.data.columns, task.bg[literal.pred], v.data, literal.variables)
  }

  /** What becomes of a literal that is added to a view: as the last one of an
      accepted clause, given up with its clause, or as one to be followed by more. */
  ghost predicate AfterLiteral(task: Task, accept: Acceptance, maximumLength: nat, triedAsLast: bool, isTied: bool,
                               v: View, literal: EvaluatedLiteral, building: Option<View>, learnt: seq<Clause>,
                               learnt': seq<Clause>)
  {
    if triedAsLast && Accepts(task, accept, v, literal) then
      building == None && learnt' == learnt + [Added(v.clause, literal.pred, literal.variables)]
    else
      && learnt' == learnt
      && if triedAsLast && (isTied || v.fromTied || |v.clause.body| >= maximumLength) then building == None
         else building.Some? && Extends(task, v, literal, isTied, building.value)
  }

  /** The head alone, over what the learnt clauses leave. */
  ghost predicate MostGeneral(task: Task, v: View, learnt: seq<Clause>) {
    && v.clause == Clause(task.numArguments, [], task.numArguments) && !v.fromTied
    && v.data == Separate(v.start, task.negatives)
    && |v.start| == task.numArguments && RowsOf(v.start) == Uncovered(task.bg, RowsOf(task.positives), learnt)
  }

  ghost function SavedWith(literals: seq<EvaluatedLiteral>, v: View): (saved: seq<Saved>)
    ensures |saved| == |literals|
  {
    seq(|literals|, i requires 0 <= i < |literals| => Saved(literals[i], v))
  }

  // ---------------------------------------------------------------------
  // One step
  // ---------------------------------------------------------------------

  /** The selection is asked once: without a choice the pass is over, or the search
      is aborted if nothing is saved; otherwise the ties are saved with the view and
      the best literal is added to it. */
  ghost predicate Selects(task: Task, search: Search, v: View, a: Config, b: Config) {
    var choice := search.select(a.step, v.clause, v.data);
    && b.step == a.step + 1 && b.passes == a.passes
    && if choice.None? then
         b.phase == (if a.saved == [] then Failed else PassOver)
         && b.building == a.building && b.saved == a.saved && b.learnt == a.learnt
       else
         var best := choice.value.best;
         var triedAsLast := !choice.value.isRandomLiteral && search.ConsidersAsLast(b.step, v.clause, best);
         && b.saved == a.saved + SavedWith(choice.value.ties, v)
         && AfterLiteral(task, search.accept, search.maximumClauseLength, triedAsLast, false, v, best, b.building,
                         a.learnt, b.learnt)
         && b.phase == if b.building == None then PassOver else Selecting
  }

  /** The literal saved last is taken back with its view and, unless it is skipped,
      added to it. */
  ghost predicate Restores(task: Task, search: Search, last: Saved, a: Config, b: Config) {
    && a.saved != [] && b.saved == a.saved[..|a.saved| - 1] && b.step == a.step + 1 && b.passes == a.passes
    && if search.skip(b.step, last.view.clause, last.literal) then
         b.phase == Returning && b.building == None && b.learnt == a.learnt
       else
         var triedAsLast := search.ConsidersAsLast(b.step, last.view.clause, last.literal);
         && AfterLiteral(task, search.accept, search.maximumClauseLength, triedAsLast, true, last.view, last.literal,
                         b.building, a.learnt, b.learnt)
         && b.phase == if b.building == None then Returning else Selecting
  }

  /** Too many positives are uncovered and passes are left. */
  ghost predicate Continues(task: Task, search: Search, learnt: seq<Clause>, passes: nat) {
    |Uncovered(task.bg, RowsOf(task.positives), learnt)| > search.maximumUncovered && passes < search.maximumIterations
  }

  ghost predicate SearchStep(task: Task, search: Search, a: Config, b: Config) {
    match a.phase
    case Selecting => a.building.Some? && Selects(task, search, a.building.value, a, b)
    case PassOver =>
      if Continues(task, search, a.learnt, a.passes + 1) then
        b == a.(phase := Returning, building := None, passes := a.passes + 1)
      else b == a.(phase := Finished, passes := a.passes + 1)
    case Returning =>
      if a.saved != [] then Restores(task, search, a.saved[|a.saved| - 1], a, b)
      else b.building.Some? && MostGeneral(task, b.building.value, a.learnt)
           && b == a.(phase := Selecting, building := b.building)
    case Finished => false
    case Failed => false
  }

  lemma NoChoice(task: Task, search: Search, v: View, a: Config)
    requires a.phase == Selecting && a.building == Some(v) && search.select(a.step, v.clause, v.data).None?
    ensures SearchStep(task, search, a, a.(phase := if a.saved == [] then Failed else PassOver, step := a.step + 1))
  {
  }

  lemma ChoiceTaken(task: Task, search: Search, v: View, a: Config, choice: Chosen, building: Option<View>,
                    learnt: seq<Clause>)
    requires a.phase == Selecting && a.building == Some(v) && search.select(a.step, v.clause, v.data) == Some(choice)
    requires var triedAsLast := !choice.isRandomLiteral && search.ConsidersAsLast(a.step + 1, v.clause, choice.best);
             AfterLiteral(task, search.accept, search.maximumClauseLength, triedAsLast, false, v, choice.best, building,
                          a.learnt, learnt)
    ensures SearchStep(task, search, a,
                       Config(if building == None then PassOver else Selecting, building,
                              a.saved + SavedWith(choice.ties, v), learnt, a.step + 1, a.passes))
  {
    hide AfterLiteral;
  }

  lemma PassEnds(task: Task, search: Search, a: Config)
    requires a.phase == PassOver
    ensures Continues(task, search, a.learnt, a.passes + 1)
            ==> SearchStep(task, search, a, a.(phase := Returning, building := None, passes := a.passes + 1))
    ensures !Continues(task, search, a.learnt, a.passes + 1)
            ==> SearchStep(task, search, a, a.(phase := Finished, passes := a.passes + 1))
  {
    hide Continues;
  }

  lemma Skipped(task: Task, search: Search, a: Config, saved: seq<Saved>, last: Saved)
    requires a.phase == Returning && a.saved == saved + [last]
    requires search.skip(a.step + 1, last.view.clause, last.literal)
    ensures SearchStep(task, search, a, Config(Returning, None, saved, a.learnt, a.step + 1, a.passes))
  {
  }

  lemma Restored(task: Task, search: Search, a: Config, saved: seq<Saved>, last: Saved, building: Option<View>,
                 learnt: seq<Clause>)
    requires a.phase == Returning && a.saved == saved + [last]
    requires !search.skip(a.step + 1, last.view.clause, last.literal)
    requires AfterLiteral(task, search.accept, search.maximumClauseLength,
                          search.ConsidersAsLast(a.step + 1, last.view.clause, last.literal), true, last.view,
                          last.literal, building, a.learnt, learnt)
    ensures SearchStep(task, search, a,
                       Config(if building == None then Returning else Selecting, building, saved, learnt, a.step + 1,
                              a.passes))
  {
    hide AfterLiteral;
  }

  lemma StartedOver(task: Task, search: Search, a: Config, v: View)
    requires a.phase == Returning && a.saved == [] && MostGeneral(task, v, a.learnt)
    ensures SearchStep(task, search, a, a.(phase := Selecting, building := Some(v)))
  {
    hide MostGeneral;
  }

  ghost predicate IsRun(task: Task, search: Search, run: seq<Config>) {
    run != [] && forall i | 0 <= i < |run| - 1 :: SearchStep(task, search, run[i], run[i + 1])
  }

  ghost function Last(run: seq<Config>): (c: Config)
    requires run != []
  {
    run[|run| - 1]
  }

  ghost predicate RunTo(task: Task, search: Search, run: seq<Config>, first: Config, last: Config) {
    IsRun(task, search, run) && run[0] == first && Last(run) == last
  }

  lemma RunStarts(task: Task, search: Search, c: Config)
    ensures RunTo(task, search, [c], c, c)
  {
  }

  lemma RunContinues(task: Task, search: Search, run: seq<Config>, first: Config, last: Config, c: Config)
    requires RunTo(task, search, run, first, last) && SearchStep(task, search, last, c)
    ensures RunTo(task, search, run + [c], first, c)
  {
    hide SearchStep;
    var longer := run + [c];
    forall i | 0 <= i < |longer| - 1
      ensures SearchStep(task, search, longer[i], longer[i + 1])
    {
      if i < |run| - 1 {
        assert SearchStep(task, search, run[i], run[i + 1]);
      }
    }
  }

  lemma RunPrefix(task: Task, search: Search, run: seq<Config>)
    requires IsRun(task, search, run) && |run| > 1
    ensures IsRun(task, search, run[..|run| - 1])
    ensures SearchStep(task, search, Last(run[..|run| - 1]), Last(run))
  {
    hide SearchStep;
    var init := run[..|run| - 1];
    forall i | 0 <= i < |init| - 1
      ensures SearchStep(task, search, init[i], init[i + 1])
    {
      assert SearchStep(task, search, run[i], run[i + 1]);
    }
    var k := |run| - 2;
    assert SearchStep(task, search, run[k], run[k + 1]);
  }

  // ---------------------------------------------------------------------
  // Tried literals and learnt clauses
  // ---------------------------------------------------------------------

  /** In this configuration the literal is tried as the last one of the view's clause:
      selected and not random, or restored and not skipped. */
  ghost predicate Tries(search: Search, a: Config, v: View, literal: EvaluatedLiteral) {
    || (a.phase == Selecting && a.building == Some(v)
        && var choice := search.select(a.step, v.clause, v.data);
        choice.Some? && choice.value.best == literal && !choice.value.isRandomLiteral
        && search.ConsidersAsLast(a.step + 1, v.clause, literal))
    || (a.phase == Returning && a.saved != [] && a.saved[|a.saved| - 1] == Saved(literal, v)
        && !search.skip(a.step + 1, v.clause, literal) && search.ConsidersAsLast(a.step + 1, v.clause, literal))
  }

  /** A step learns exactly the clause of a tried literal that passes the test. */
  lemma StepLearns(task: Task, search: Search, a: Config, b: Config)
    requires SearchStep(task, search, a, b)
    ensures forall v, literal | Tries(search, a, v, literal) && Accepts(task, search.accept, v, literal) ::
              b.learnt == a.learnt + [Added(v.clause, literal.pred, literal.variables)]
    ensures b.learnt == a.learnt || LearnsTried(task, search, a, b.learnt)
  {
    hide Accepts, Extends, MostGeneral, Continues;
    if a.phase == Selecting {
      var v := a.building.value;
      var choice := search.select(a.step, v.clause, v.data);
      if choice.Some? && b.learnt != a.learnt {
        assert Tries(search, a, v, choice.value.best);
      }
    } else if a.phase == Returning && a.saved != [] {
      var last := a.saved[|a.saved| - 1];
      if b.learnt != a.learnt {
        assert Tries(search, a, last.view, last.literal);
      }
    }
  }

  ghost predicate LearnsTried(task: Task, search: Search, a: Config, learnt: seq<Clause>) {
    exists v, literal :: Tries(search, a, v, literal) && Accepts(task, search.accept, v, literal)
                         && learnt == a.learnt + [Added(v.clause, literal.pred, literal.variables)]
  }

  /** Clauses are only added, and in a run every tried literal that passes the test
      is in the clauses learnt by the end. */
  lemma {:induction false} TriedIsLearnt(task: Task, search: Search, run: seq<Config>, i: nat)
    requires IsRun(task, search, run) && i < |run|
    ensures run[i].learnt <= Last(run).learnt
    ensures i < |run| - 1 ==>
              forall v, literal | Tries(search, run[i], v, literal) && Accepts(task, search.accept, v, literal) ::
                run[i].learnt + [Added(v.clause, literal.pred, literal.variables)] <= Last(run).learnt
    decreases |run|
  {
    hide Tries, Accepts, SearchStep, LearnsTried;
    if i < |run| - 1 {
      RunPrefix(task, search, run);
      var init := run[..|run| - 1];
      StepLearns(task, search, Last(init), Last(run));
      LearntGrows(task, search, Last(init), Last(run));
      TriedIsLearnt(task, search, init, i);
    }
  }

  lemma LearntGrows(task: Task, search: Search, a: Config, b: Config)
    requires SearchStep(task, search, a, b)
    ensures a.learnt <= b.learnt
  {
    hide Accepts, Extends, MostGeneral, Continues;
  }

  /** Conversely every clause learnt in a run is that of a literal that was tried and
      passed the test. */
  lemma {:induction false} LearntWasTried(task: Task, search: Search, run: seq<Config>, k: nat)
    returns (i: nat, v: View, literal: EvaluatedLiteral)
    requires IsRun(task, search, run) && |run[0].learnt| <= k < |Last(run).learnt|
    ensures i < |run| - 1 && Tries(search, run[i], v, literal) && Accepts(task, search.accept, v, literal)
    ensures k == |run[i].learnt| && Last(run).learnt[k] == Added(v.clause, literal.pred, literal.variables)
    decreases |run|
  {
    hide Tries, Accepts, SearchStep;
    assert |run| > 1;
    RunPrefix(task, search, run);
    var init := run[..|run| - 1];
    StepLearns(task, search, Last(init), Last(run));
    if k < |Last(init).learnt| {
      LearntGrows(task, search, Last(init), Last(run));
      i, v, literal := LearntWasTried(task, search, init, k);
    } else {
      i := |run| - 2;
      v, literal :| Tries(search, run[i], v, literal) && Accepts(task, search.accept, v, literal)
                    && Last(run).learnt == run[i].learnt + [Added(v.clause, literal.pred, literal.variables)];
    }
  }

  // ---------------------------------------------------------------------
  // Saved literals
  // ---------------------------------------------------------------------

  /** The literals that a step saves. */
  ghost function Pushed(search: Search, a: Config): (saved: seq<Saved>) {
    if a.phase == Selecting && a.building.Some? then
      var choice := search.select(a.step, a.building.value.clause, a.building.value.data);
      if choice.Some? then SavedWith(choice.value.ties, a.building.value) else []
    else []
  }

  /** The literals that a step takes back. */
  ghost function Popped(a: Config): (saved: seq<Saved>) {
    if a.phase == Returning && a.saved != [] then [a.saved[|a.saved| - 1]] else []
  }

  ghost function AllPushed(search: Search, run: seq<Config>): (saved: multiset<Saved>) {
    if |run| <= 1 then multiset{}
    else AllPushed(search, run[..|run| - 1]) + multiset(Pushed(search, run[|run| - 2]))
  }

  ghost function AllPopped(run: seq<Config>): (saved: multiset<Saved>) {
    if |run| <= 1 then multiset{} else AllPopped(run[..|run| - 1]) + multiset(Popped(run[|run| - 2]))
  }

  /** Saved literals are not lost: each is taken back once or still saved at the end. */
  lemma {:induction false} SavedAreConserved(task: Task, search: Search, run: seq<Config>)
    requires IsRun(task, search, run)
    ensures multiset(run[0].saved) + AllPushed(search, run) == AllPopped(run) + multiset(Last(run).saved)
    decreases |run|
  {
    AddUp(search, run);
    if |run| > 1 {
      RunPrefix(task, search, run);
      var init := run[..|run| - 1];
      assert Last(init) == run[|run| - 2] && init[0] == run[0];
      hide *;
      SavedAreConserved(task, search, init);
      StepConserves(task, search, Last(init), Last(run));
      Carry(multiset(run[0].saved), AllPushed(search, init), AllPopped(init), multiset(Last(init).saved),
            multiset(Pushed(search, Last(init))), multiset(Popped(Last(init))), multiset(Last(run).saved));
    }
  }

  lemma AddUp(search: Search, run: seq<Config>)
    requires run != []
    ensures |run| == 1 ==> AllPushed(search, run) == AllPopped(run) == multiset{}
    ensures |run| > 1 ==>
              var init := run[..|run| - 1];
              && AllPushed(search, run) == AllPushed(search, init) + multiset(Pushed(search, Last(init)))
              && AllPopped(run) == AllPopped(init) + multiset(Popped(Last(init)))
  {
    hide Pushed, Popped;
  }

  lemma Carry(start: multiset<Saved>, pushed: multiset<Saved>, popped: multiset<Saved>, middle: multiset<Saved>,
              push: multiset<Saved>, pop: multiset<Saved>, end: multiset<Saved>)
    requires start + pushed == popped + middle && middle + push == pop + end
    ensures start + (pushed + push) == (popped + pop) + end
  {
    assert start + (pushed + push) == (start + pushed) + push;
    assert (popped + middle) + push == popped + (middle + push);
    assert popped + (pop + end) == (popped + pop) + end;
  }

  lemma StepConserves(task: Task, search: Search, a: Config, b: Config)
    requires SearchStep(task, search, a, b)
    ensures multiset(a.saved) + multiset(Pushed(search, a)) == multiset(Popped(a)) + multiset(b.saved)
  {
    hide AfterLiteral, MostGeneral, Continues;
    if a.phase == Returning && a.saved != [] {
      assert a.saved == a.saved[..|a.saved| - 1] + [a.saved[|a.saved| - 1]];
    }
  }

  /** The search starts a new clause from the head only when nothing is saved. */
  lemma StartsOverWhenEmpty(task: Task, search: Search, run: seq<Config>, i: nat)
    requires IsRun(task, search, run) && i < |run| - 1
    requires run[i].phase == Returning && run[i + 1].phase == Selecting && run[i + 1].building.Some?
    requires run[i + 1].building.value.clause.body == []
    ensures run[i].saved == [] && MostGeneral(task, run[i + 1].building.value, run[i].learnt)
  {
    assert SearchStep(task, search, run[i], run[i + 1]);
    hide Accepts, MostGeneral, Continues;
  }

  /** A search is aborted only when the selection gives nothing and nothing is saved. */
  lemma FailedMeans(task: Task, search: Search, run: seq<Config>)
    requires IsRun(task, search, run) && |run| > 1 && Last(run).phase == Failed
    ensures Last(run).saved == [] && run[|run| - 2].phase == Selecting && run[|run| - 2].building.Some?
    ensures var v := run[|run| - 2].building.value;
            search.select(run[|run| - 2].step, v.clause, v.data).None?
  {
    RunPrefix(task, search, run);
    hide Accepts, Extends, MostGeneral, Continues;
  }

  /** It finishes only when few enough positives are left or no pass is. */
  lemma FinishedMeans(task: Task, search: Search, run: seq<Config>)
    requires IsRun(task, search, run) && |run| > 1 && Last(run).phase == Finished
    ensures |Uncovered(task.bg, RowsOf(task.positives), Last(run).learnt)| <= search.maximumUncovered
            || Last(run).passes >= search.maximumIterations
  {
    RunPrefix(task, search, run);
    hide Accepts, Extends, MostGeneral, Uncovered;
  }

  /** Passes are counted where they are over. */
  ghost function PassesOver(run: seq<Config>): (n: nat) {
    if |run| <= 1 then 0
    else PassesOver(run[..|run| - 1]) + if run[|run| - 2].phase == PassOver then 1 else 0
  }

  lemma {:induction false} PassesAreCounted(task: Task, search: Search, run: seq<Config>)
    requires IsRun(task, search, run)
    ensures Last(run).passes == run[0].passes + PassesOver(run)
    decreases |run|
  {
    if |run| > 1 {
      RunPrefix(task, search, run);
      PassesAreCounted(task, search, run[..|run| - 1]);
      hide Selects, Restores, MostGeneral, Continues;
      StepCounts(task, search, run[|run| - 2], Last(run));
    }
  }

  lemma StepCounts(task: Task, search: Search, a: Config, b: Config)
    requires SearchStep(task, search, a, b)
    ensures b.passes == a.passes + if a.phase == PassOver then 1 else 0
  {
    hide AfterLiteral, MostGeneral, Continues;
  }

  // ---------------------------------------------------------------------
  // Which literals were restored
  // ---------------------------------------------------------------------

  /** For every literal of a clause, in order, whether it was taken back from the
      saved ones when it was added. */
  datatype Marks = Marks(building: seq<bool>, saved: seq<seq<bool>>)

  ghost function NextMarks(search: Search, a: Config, m: Marks): (r: Marks) {
    match a.phase
    case Selecting =>
      if a.building.Some? && search.select(a.step, a.building.value.clause, a.building.value.data).Some? then
        Marks(m.building + [false], m.saved + seq(|Pushed(search, a)|, _ => m.building))
      else m
    case Returning =>
      if a.saved == [] || m.saved == [] then Marks([], [])
      else Marks(m.saved[|m.saved| - 1] + [true], m.saved[..|m.saved| - 1])
    case _ => m
  }

  ghost function MarksAfter(search: Search, run: seq<Config>, m: Marks): (r: Marks) {
    if |run| <= 1 then m else NextMarks(search, run[|run| - 2], MarksAfter(search, run[..|run| - 1], m))
  }

  ghost predicate Marked(v: View, marks: seq<bool>) {
    |marks| == |v.clause.body| && (v.fromTied <==> true in marks)
  }

  ghost predicate MarksFit(c: Config, m: Marks) {
    && |m.saved| == |c.saved| && (forall k | 0 <= k < |c.saved| :: Marked(c.saved[k].view, m.saved[k]))
    && (c.phase == Selecting && c.building.Some? ==> Marked(c.building.value, m.building))
  }

  /** Nothing has been restored in the head alone. */
  lemma NothingRestored(c: Config)
    requires c.saved == [] && c.building.Some? && c.building.value.clause.body == [] && !c.building.value.fromTied
    ensures MarksFit(c, Marks([], []))
  {
  }

  /** Along a search a state counts as extended from a tied literal exactly when some
      literal of its clause was restored. */
  lemma {:induction false} FlagMeansRestored(task: Task, search: Search, run: seq<Config>, m: Marks)
    requires IsRun(task, search, run) && MarksFit(run[0], m)
    ensures MarksFit(Last(run), MarksAfter(search, run, m))
    decreases |run|
  {
    if |run| > 1 {
      RunPrefix(task, search, run);
      var init := run[..|run| - 1];
      FlagMeansRestored(task, search, init, m);
      assert Last(init) == run[|run| - 2];
      hide SearchStep, MarksFit, NextMarks;
      StepMarks(task, search, Last(init), Last(run), MarksAfter(search, init, m));
    }
  }

  lemma StepMarks(task: Task, search: Search, a: Config, b: Config, m: Marks)
    requires SearchStep(task, search, a, b) && MarksFit(a, m)
    ensures MarksFit(b, NextMarks(search, a, m))
  {
    if a.phase == Selecting {
      SelectMarks(task, search, a, b, m);
    } else if a.phase == Returning && a.saved != [] {
      RestoreMarks(task, search, a, b, m);
    } else {
      hide Selects, Restores, Continues;
    }
  }

  lemma ExtendedMarks(task: Task, v: View, literal: EvaluatedLiteral, isTied: bool, v': View, marks: seq<bool>)
    requires Extends(task, v, literal, isTied, v') && Marked(v, marks)
    ensures Marked(v', marks + [isTied])
  {
    assert |v'.clause.body| == |v.clause.body| + 1;
  }

  lemma SelectMarks(task: Task, search: Search, a: Config, b: Config, m: Marks)
    requires SearchStep(task, search, a, b) && MarksFit(a, m) && a.phase == Selecting
    ensures MarksFit(b, NextMarks(search, a, m))
  {
    hide Extends, Accepts, MostGeneral, Continues, Restores, Marked;
    var v := a.building.value;
    var choice := search.select(a.step, v.clause, v.data);
    if choice.Some? {
      var pushed := SavedWith(choice.value.ties, v);
      assert Pushed(search, a) == pushed;
      if b.building.Some? {
        ExtendedMarks(task, v, choice.value.best, false, b.building.value, m.building);
      }
    }
  }

  lemma RestoreMarks(task: Task, search: Search, a: Config, b: Config, m: Marks)
    requires SearchStep(task, search, a, b) && MarksFit(a, m) && a.phase == Returning && a.saved != []
    ensures MarksFit(b, NextMarks(search, a, m))
  {
    hide Extends, Accepts, MostGeneral, Continues, Selects, Marked;
    var last := a.saved[|a.saved| - 1];
    if b.building.Some? {
      ExtendedMarks(task, last.view, last.literal, true, b.building.value, m.saved[|m.saved| - 1]);
    }
  }
}
