# QuickFOIL: a model of the learner and its join engine

QuickFOIL learns Horn clauses that cover the positive and avoid the negative examples of a target predicate. Candidate
literals are enumerated for a growing clause, scored by an in-memory join engine, and the chosen one extends the clause
and its binding table; accepted clauses remove the examples they cover. This project models that machinery in Dafny and
proves what it computes against naive definitions: sets of satisfying assignments, nested-loops joins, homomorphisms and
answers over all databases.

- **The duplicate test** (`Query`, `CanonicalJoin`, `JoinExactness`, `DuplicateCheck`, `RepeatedVariables`). A candidate is
  dropped if some body literal can be replaced by it. The test joins canonical relations; `Query` proves the
  Chandra-Merlin criterion (containment over all finite databases is a homomorphism the other way round), the other
  modules prove which homomorphisms the joins find, when they find them, and what the verdict then says about all databases.
- **The enumeration** (`Enumeration`). The incremental lists of candidate literals along a clause.
- **The join and count engine** (`Bits`, `BitVectors`, `Tally`, `RadixPartition`, `HashTable`, `PartitionAssigner`, `HashJoin`,
  `Stream`, `JoinMeaning`, `EvaluationPlan`, `CountAggregator`, `Pipeline`, `Evaluator`). Radix partitions, chained hash
  tables, a partition-major stream of joined chunks, filters and counters, put together to the counts of every candidate.
- **The plan compiler** (`PlanAtoms`, `PlanGenerator`, `PlanLoop`, `PlanPruning`, `PlanClone`). Sharing of sub-conjunctions
  among the literals of a join group.
- **Binding tables and coverage** (`Bindings`, `KeyColumns`, `MultiColumnJoin`, `BindingTables`, `FoilClauses`, `SemiJoins`,
  `Coverage`, `ChunkedBuild`, `Gather`, `Examples`, `ClauseCoverage`, `UncoveredRows`). The join that materialises an accepted
  literal, the numbering of variables, and the cascaded semi-joins that tell covered examples.
- **The learner and the evaluation of a theory** (`SearchSteps`, `Learner`, `TestRunner`). The steps of a search on plain
  values, the search loop with its saved states as a run of these steps, and the count of examples that a set of clauses
  leaves uncovered.

Code that works by changing things step by step is modelled by methods with loops, on arrays and on classes with the
original's fields; what they compute is stated by functions and predicates, and lemmas say what those mean. Hash functions
are arbitrary functions. The order in which an unordered container is walked is a parameter or left open.

## Findings

- **Repeated variables.** The enumerator produces candidates such as `p(1,2,2)`. `NestedLoopsJoin`
  (learner/CandidateLiteralEnumerator.cpp:531-573) never compares the values of two positions that hold one variable
  without a value. For the clause `h(0) :- r(0,1), p(1,2,3)` the test reports `p(1,2,2)` as a duplicate, although replacing
  `p(1,2,3)` by it changes the answers: `RepeatedVariables.ReportRepeatedVariable` is that run. Exactly when each join is
  right is settled by `JoinExactness`: a join of a literal is right, whatever the relations, if and only if every variable
  that the literal repeats occurs in a literal joined before; the row that starts a relation is right if and only if the
  literal repeats no variable. `CheckReplaceableDuplicate` is proved under that condition on the literals alone.
- **Chunks of a semi-join.** `BuildHashTableAfterSemiJoinImpl` (operations/BuildHashTable.cpp:153-189) numbers rows from the
  start of their chunk. `ChunkedBuild.BuildIsExactIff`: the table finds exactly the selected keys, whatever the keys, the
  selection and the hash function, if and only if the rows fit in one chunk (or the semi-join yields its whole output
  at once, as the right semi-join does).
- **Plans that are never finished.** The merging loop of `GeneratePredicateEvaluationPlan`
  (learner/CandidateLiteralEvaluator.cpp:157-233) runs for ever as soon as one iteration completes no literal
  (`PlanGenerator.NeverFinishes`). It ends whatever the order of the unordered sets if and only if no literal has more
  than two equalities besides its join key (`Evaluator.PlansFinishIff`). `Evaluator.Evaluate` answers `PlansDoNotEnd`
  exactly when the loop of some join group runs for ever in the given order.
- **Nothing joins.** `CountAggregator::Execute` (operations/CountAggregator.cpp:111-130) takes a first joined chunk for
  granted, with a debug assertion only. `Evaluator.Evaluate` answers `NoFirstChunk` exactly when some pass has no pair of rows that
  agree on a join key.

## Model

| member | source | states |
|---|---|---|
| `DuplicateCheck.CandidateLiteralEnumerator.CheckReplaceableDuplicate` | learner/CandidateLiteralEnumerator.cpp:364-452 | the verdict says of all databases that some body literal can be replaced by the candidate without changing the clause's answers, and of the clause that head-fixing homomorphisms exist both ways; for candidates whose repeated variables are assigned before they are joined; for all others the verdict is tied to the joined rows |
| `DuplicateCheck.CandidateLiteralEnumerator.CreateCanonicalDatabase` | learner/CandidateLiteralEnumerator.cpp:454-528 | the relation holds exactly the homomorphisms of the other predicates' literals and the head into their frozen copy, in whatever order they are joined, the identity among them, and enters the cache |
| `DuplicateCheck.VerdictMeansEquivalent` | learner/CandidateLiteralEnumerator.cpp:385-450 | the two tests together decide mutual homomorphism, and mutual homomorphism decides equivalence over all databases unless another literal has the head's predicate |
| `CanonicalJoin.NestedLoopsJoin` | learner/CandidateLiteralEnumerator.cpp:531-573 | a row is found if and only if some relation row matches some joined row; the new rows are exactly the extensions of matching rows |
| `CanonicalJoin.JoinStep` | learner/CandidateLiteralEnumerator.cpp:531-573 | joining turns the homomorphisms of a set of literals into those of the set with the literal |
| `JoinExactness.JoinExactIff` | learner/CandidateLiteralEnumerator.cpp:531-573 | the join of a literal yields the homomorphisms for all relations if and only if each variable it repeats occurs in a literal joined before |
| `JoinExactness.BoundTestExactIff` | learner/CandidateLiteralEnumerator.cpp:395-420 | the test that only compares bound arguments decides whether the homomorphisms extend to the candidate, for all relations, if the repeated variables are assigned; and only then if no joined literal is the candidate's twin |
| `JoinExactness.AnyTestExactIff` | learner/CandidateLiteralEnumerator.cpp:420-450 | the same for the test that asks for any compatible pair |
| `JoinExactness.StartExactIff` | learner/CandidateLiteralEnumerator.cpp:470-495 | starting a relation from a literal is right for all databases if and only if it repeats no variable |
| `RepeatedVariables.ReportRepeatedVariable` | learner/CandidateLiteralEnumerator.cpp:364-452 | a run of the test that reports a candidate whose replacement changes the clause's answers |
| `Enumeration.EnumerateAlong` | learner/CandidateLiteralEnumerator.cpp:102-199 | along every clause each predicate's list holds exactly once every literal whose bound arguments are clause variables occurring at positions of the arguments' types, and which has one, except the head, the added literals without new variables, and those that restrict to a dropped literal; all of it read off the clause |
| `Enumeration.TypesShow` | learner/CandidateLiteralEnumerator.cpp:217-225 | the variable types kept along the steps are those of the head's and the body's argument positions, for every variable |
| `Enumeration.EnumerateFromScratch` | learner/CandidateLiteralEnumerator.cpp:49-100 | the list for the head alone is complete and free of duplicates |
| `Enumeration.EnumerateFromPrevious` | learner/CandidateLiteralEnumerator.cpp:130-185 | from a complete list and one more body literal to the complete list over the new variables too |
| `Enumeration.GenerateCandidateLiterals` | learner/CandidateLiteralEnumerator.cpp:334-362 | every way to choose the arguments, once, and the wholly unbound one last |
| `Enumeration.GenerateCandidateLiteralsFromAnother` | learner/CandidateLiteralEnumerator.cpp:290-331 | every way to fill the base literal's unbound arguments, once, and the base literal itself last |
| `Enumeration.DroppedIsUseless` | learner/CandidateLiteralEnumerator.cpp:164-185 | a literal that is missing because of a dropped one has no witness in any extension of the clause |
| `RadixPartition.Partition` | operations/RadixPartition.cpp:56-155 | partition p lists, by increasing row number, exactly the rows whose hash ends in the binary digits of p; unbuffered tails overwritten by other partitions' flushes are repaired |
| `RadixPartition.FlushedOnce` | operations/RadixPartition.cpp:95-135 | an output line is flushed by one row at most, of the partition that owns the line's last slot |
| `Bits.NextPow2` | storage/FoilHashTable.cpp:22-49 | the bit-smearing macro yields the least power of two that is at least the size |
| `HashTable.BuildHashTable` | operations/BuildHashTable.cpp:29-52 | the chain of a bucket holds exactly the rows whose hash has the digits of the bucket's number behind the radix bits; the number of buckets is the least power of two that suffices |
| `HashTable.ChainsPartitionRows` | operations/BuildHashTable.cpp:29-52 | every row is in its own bucket's chain only, and chains go down strictly |
| `HashTable.Probe` | operations/HashJoin.cpp:55-71 | following the chain yields exactly the rows with the key |
| `PartitionAssigner.PartitionAssigner.Next` | operations/PartitionAssigner.hpp:77-138 | emits the next chunk of the partition-major list of all chunks, or null when none is left |
| `PartitionAssigner.Work.EmittedAreCut` | operations/PartitionAssigner.hpp:77-103 | every chunk of the stream is a piece of its partition from a multiple of the chunk size on, of chunk size unless it is the last |
| `ChunkStream.PartitionMajor` | operations/PartitionAssigner.hpp:77-138 | partition ids never go down along the stream, so that a partition's semi-join vectors are reset once |
| `HashJoin.HashJoin.Next` | operations/HashJoin.cpp:23-86 | the next chunk that joins to something carries all its joined pairs; the chunks passed over join to nothing |
| `JoinMeaning.JoinedFromIsExact` | operations/HashJoin.cpp:23-86 | the stream of a join group holds every pair of rows with equal keys exactly once |
| `JoinMeaning.TallyMeansCardinality` | operations/CountAggregator.cpp:81-109 | the running counters come to the number of selected pairs and of distinct binding rows in them |
| `Tallies.UpdateSemiBitVector` | operations/CountAggregator.cpp:81-98 | visiting the set bits counts each binding row once across chunks |
| `EvaluationPlan.PlanState.Consume` | operations/CountAggregator.cpp:111-245 | a chunk updates the counters of every literal of a plan as its conjunction's pairs require, over shared nodes and a change of partition |
| `CountAggregator.EvaluateForJoin` | expressions/ComparisonPredicate.hpp:63-86 | bit i tells whether pair i satisfies the equality, written in blocks of 64 |
| `CountAggregator.Filter.Next` | operations/Filter.cpp:17-38 | one bit vector per equality of the chunk's join group |
| `CountAggregator.CountAggregator.Execute` | operations/CountAggregator.cpp:111-361 | every plan ends with the counts of the whole stream; it does not start if and only if nothing joins |
| `PlanGenerator.SomePairShares` | learner/CandidateLiteralEvaluator.cpp:157-188 | while a literal remains, two mergeable nodes share one |
| `PlanLoop.FindBestPair` | learner/CandidateLiteralEvaluator.cpp:160-188 | the double loop ends with the first pair that shares the most literals |
| `PlanLoop.MergeAll` | learner/CandidateLiteralEvaluator.cpp:157-233 | places every literal at one node of exactly its atoms; reports divergence if and only if no run of the loop ends |
| `PlanGenerator.NeverFinishes` | learner/CandidateLiteralEvaluator.cpp:157-233 | after one iteration that completes nothing no later iteration completes anything |
| `PlanGenerator.TerminationIff` | learner/CandidateLiteralEvaluator.cpp:157-233 | the loop ends in every order if and only if no remaining literal has more than two atoms |
| `PlanLoop.GroupFinishesIff` | learner/CandidateLiteralEvaluator.cpp:105-233 | the same for a join group's literals, from their variables |
| `PlanPruning.DropUnused` | learner/CandidateLiteralEvaluator.cpp:235-245 | reference counting keeps exactly the nodes that carry or lie below a literal |
| `PlanPruning.GeneratePredicateEvaluationPlan` | learner/CandidateLiteralEvaluator.cpp:105-257 | every literal has one place, whose conjunction is exactly the literal's; children precede parents and no conjunction serves nothing; no plan if and only if the loop does not end |
| `PlanClone.Clone` | learner/PredicateEvaluationPlan.hpp:65-103 | the copy is the same graph, of new nodes with empty bit vectors |
| `Evaluator.Evaluate` | learner/CandidateLiteralEvaluator.cpp:264-406 | for every candidate and label the binding count is the number of agreeing pairs of fact and binding rows and the coverage count the number of binding rows in them; there are scores if and only if plan generation ends for every join group and in every pass some candidate's key column shares a value with the clause's; a witness in every pass is enough for the latter |
| `Evaluator.ScoresMean` | learner/CandidateLiteralEvaluator.cpp:264-406 | the four counters of every candidate, as cardinalities of its witnesses and of the binding rows among them |
| `Evaluator.OnePassIsTwoPasses` | operations/CountAggregator.cpp:111-367 | the labelled pass over positives followed by negatives scores like one pass over each |
| `Evaluator.PlansFinishIff` | learner/CandidateLiteralEvaluator.cpp:105-233 | plan generation returns for all predicates in every order if and only if no candidate has more than two equalities besides its join key |
| `KeyColumns.VectorEqualAt` | utility/Hash.hpp:57-85 | compares the whole keys, in the unrolled and in the general case |
| `KeyColumns.Hashing.HashGoesLeftToRight` | utility/Hash.hpp:35-55 | the hash of a key combines its values from left to right |
| `MultiColumnJoin.DoBlockJoin` | operations/MultiColumnHashJoin.cpp:497-528 | a block's row numbers are those of its key-equal pairs |
| `MultiColumnJoin.CollaborateJoinImpl` | operations/MultiColumnHashJoin.cpp:531-627 | two joins of one probe table fill disjoint regions of the same buffers, each with its own rows and nothing else changed |
| `BindingTables.CreateLabelAwareBindingTables` | operations/MultiColumnHashJoin.cpp:117-256 | with the engine's counts as sizes the buffers are filled completely and exactly by the join, positives in front |
| `BindingTables.StrategiesAgree` | operations/MultiColumnHashJoin.cpp:152-256 | probing with the facts and probing with the bindings give the same multiset of rows |
| `BindingTables.CreateBindingTable` | operations/MultiColumnHashJoin.cpp:26-114 | growing buffers end as the join of a bound literal with the bindings |
| `FoilClauses.FoilClause.AddUnBoundBodyLiteral` | schema/FoilClause.cpp:42-60 | the clause gains the literal with its unbound arguments numbered on |
| `FoilClauses.NumberingMeans` | schema/FoilClause.cpp:42-60 | the j-th unbound argument names the j-th new column, bound ones keep their variables |
| `FoilClauses.ExtensionKeepsTable` | learner/QuickFoil.cpp:443-469 | if the rows are exactly the satisfying assignments of the clause, one per choice of facts, then so they are for the extended clause and the joined table |
| `SemiJoins.SelectAndCreateSemiJoin` | operations/SemiJoinFactory.cpp:45-82 | either strategy marks exactly the rows with a partner; which one yields one chunk |
| `SemiJoins.LeftSemiJoin.Next` | operations/LeftSemiJoin.hpp:55-141 | the next chunk's bits tell which of its rows have a partner |
| `SemiJoins.RightSemiJoin.Next` | operations/RightSemiJoin.hpp:44-82 | the only chunk tells it for all build rows |
| `Coverage.BuildHashTableAfterSemiJoin` | operations/BuildHashTable.cpp:153-189 | the table finds exactly the keys of the surviving rows, each key linked once, for one chunk |
| `ChunkedBuild.BuildIsExactIff` | operations/BuildHashTable.cpp:127-189 | for rows in chunks of any size the table finds exactly the selected keys in all cases if and only if they fit in one chunk |
| `BitVectors.WriteBits` | operations/LeftSemiJoin.hpp:95-140 | block-wise writing sets bit i to the predicate of i and leaves the padding clear |
| `BitVectors.BitVectorIterator.FindNext` | utility/BitVectorIterator.hpp:32-57 | moves to the next set bit |
| `Gather.EvaluateWithFilter` | expressions/AttributeReference.hpp:46-64 | copies exactly the selected values, in order, and changes nothing else |
| `Examples.CascadeMeansCovered` | learner/QuickFoil.cpp:471-573 | the coverage semi-join over the surviving bindings' prefixes marks exactly the examples that start a binding row with a witness |
| `ClauseCoverage.CoveredMeansCovers` | learner/QuickFoil.cpp:471-573 | a marked example is one that the extended clause covers, and conversely |
| `ClauseCoverage.ZeroCoverageIsFinal` | learner/QuickFoil.cpp:429-437 | a literal without witnesses has none in any further bound version over any extension of the clause |
| `Learner.QuickFoil.AddLiteralToBuildingClause` | learner/QuickFoil.cpp:443-469 | the new state's clause and tables belong together, over the examples the old state started from |
| `Learner.QuickFoil.AddBuildingClauseWithNewLiteral` | learner/QuickFoil.cpp:575-721 | the clause is learnt if and only if it passes the test on the examples it covers, and then exactly those it covers leave the uncovered ones |
| `Learner.UncoveredWithinState` | learner/QuickFoil.cpp:640-700 | the uncovered examples are a sub-multiset of every saved state's, and a clause leaves no more of them: the buffers sized from the state suffice |
| `UncoveredRows.UncoveredIsExact` | learner/QuickFoil.cpp:640-700 | an example is left as often as it was there if no clause covers it, and not at all otherwise |
| `Learner.QuickFoil.RestoreTiedLiteral` | learner/QuickFoil.cpp:327-333 | the literal saved last comes back with the state it was evaluated on |
| `Learner.QuickFoil.AddBestCandidateLiteral` | learner/QuickFoil.cpp:362-417 | accepts, gives up or extends, as flags, length and test require; an extended state has the joined table and the flag for tied literals |
| `Learner.QuickFoil.Learn` | learner/QuickFoil.cpp:171-360 | whatever is selected, the search returns, and what it does is a run of search steps from the state before to the state after it; every literal that is tried and passes the test is in a learnt clause, each clause learnt passed the test on what some of the clauses before it had left, and the positives left are exactly those no learnt clause covers |
| `SearchSteps.TriedIsLearnt` | learner/QuickFoil.cpp:376-380 | in a run every literal that is selected or restored, tried as the last one and passes the test has its clause among those learnt by the end |
| `SearchSteps.LearntWasTried` | learner/QuickFoil.cpp:376-380 | every clause learnt in a run is that of a literal that was tried and passed the test |
| `SearchSteps.SavedAreConserved` | learner/QuickFoil.cpp:300-345 | every literal saved in a run is taken back once or still saved at its end |
| `SearchSteps.StartsOverWhenEmpty` | learner/QuickFoil.cpp:326-353 | a new clause starts from the head, over what is uncovered, only when nothing is saved |
| `SearchSteps.FailedMeans` | learner/QuickFoil.cpp:235-240 | the search is aborted only when the selection gives nothing and nothing is saved |
| `SearchSteps.FinishedMeans` | learner/QuickFoil.cpp:122-125 | the search finishes only when few enough positives are uncovered or no iteration is left |
| `SearchSteps.PassesAreCounted` | learner/QuickFoil.cpp:321-324 | the iteration counter is the number of passes of the outer loop |
| `SearchSteps.FlagMeansRestored` | learner/QuickFoil.cpp:398-409 | along a run a state counts as extended from a tied literal exactly when some literal of its clause was restored |
| `TestRunner.ComputeUnCoveredData` | learner/QuickFoilTestRunner.cpp:40-125 | what remains are exactly the rows that the clause does not cover |
| `TestRunner.RunTest` | learner/QuickFoilTestRunner.cpp:128-161 | returns the number of rows covered by no clause, counted by their positions |

## Left out

- DuplicateCheck.CandidateLiteralEnumerator.CheckReplaceableDuplicate: clauses in which a literal repeats a variable that no earlier literal of its predicate holds are not covered; the predicates' joining order is open, and `JoinExactness` shows that without this condition some order goes wrong. Equivalence needs a head predicate that no other predicate's literal has, which main/Configuration.cpp:84-87 guarantees.
- Enumeration.EnumerateAlong: predicates with a key, for which variables at the key's place are left out; the removal of replaceable duplicates from the list is the subject of `DuplicateCheck` and not composed with the enumeration.
- Evaluator.Evaluate: tables of up to 2^30 rows, as the power-of-two macro overflows beyond; the two one-label passes use one plan value, where the original clones linked nodes, which `PlanClone.Clone` covers on its own.
- PlanLoop.MergeAll: nodes are named by index; the original keeps references to nodes across a growing vector.
- Coverage.BuildHashTableAfterSemiJoin: one chunk only; `ChunkedBuild` treats the others.
- BindingTables.CreateLabelAwareBindingTables: the table that is hashed must not be empty, as storage/FoilHashTable.cpp:35 demands.
- MultiColumnJoin.CollaborateJoinImpl: a block's left columns are written before its right columns; the original alternates column by column.
- TestRunner.RunTest: sizes for which hash tables exist and the last semi-join yields one chunk; the null check after `ComputeUnCoveredData` never applies and is not modelled.
- Learner.QuickFoil.Learn: regrowing a clause from its previous state after a random literal, and the reuse of first-iteration statistics; the selection is an arbitrary function whose literals were evaluated on the clause they are selected for. That a clause holds a bounded number of random literals enters as a bound on its length when one is selected.
- BindingTables.CreateBindingTable: `realloc` is modelled by a new array with the same beginning.
- Scores, thresholds and tie-breaking of `LiteralSelector`, which are floating point: any selection is allowed.
- `FoilClause::Equals`, which the modelled code does not call.
- 32-bit overflow of counters and row numbers, SIMD stores, alignment, shared pointers, memory quota, timers and logging.
- Configuration, file loading, parsing, type registry and `main`.
- Third-party bit sets, vectors and hash functions: sequences of bits, sequences, and arbitrary functions.
