# Verified models of SMT Kit's algorithms

SMT Kit is a C++11 library for many-sorted logics with three clients built on it: a
bounded checker for concurrent programs, a checker for Concurrent Kleene Algebra (CKA) and
a non-standard symbolic execution engine. It also has a small manager of binary decision
diagrams. This project models the algorithms of these four in Dafny and proves what
they are for. SMT solvers are oracles: functions of the query (and of the number of calls
so far) that may give up, and of which only those answers are trusted that the proofs use.
What a checker reports is proved twice: what holds whenever "unsat" is right, and what holds
besides when the solver is conclusive, that is, answers every query and "sat" is right as well.

Run `dafny verify dfyconfig.toml` to check everything.

## What is here

**Path exploration** (`Formulas`, `DecisionTrees`, `SequentialChecker`,
`PrunedExploration`, `BacktrackChecker`, `PathConditions`, `SearchOutcome`,
`ExplorationLog`, `ExplorationLoss`, `DecidingSolver`, `NonChronologicalExploration`,
`LossyPrograms`). A program is a decision tree of branches, assertions and errors. `Dfs`,
`SequentialDfsChecker` and `BacktrackDfsChecker` are classes with the fields of the
original; the exploration loop `do { run } while (find_next_path())` is proved to
terminate and to visit no leaf twice. With pruning it visits every feasible leaf, finds
every error that some input reaches and, with a conclusive solver and unless a literal error
stops the run, no other (`PrunedExploration.Explore`). With backtracking it can lose some, and the exact loss is proved: for one search
(`SearchOutcome.SearchExact`), and for whole explorations with and without a check after
every path, whose logs are specified exactly, under all reliable solvers
(`ExplorationLoss.LosesExactly`) and under a solver that decides its queries, where the
leaves visited depend on the program alone (`DecidingSolver.VisitsAreMet`). Two concrete
programs show that an assertion, or a satisfiable error that was checked, loses a feasible
leaf. Checks after every path still find an error if some input that meets all assertions
reaches one, provided the solver blames no guard for what is inconsistent without guards.

**Partial-order encodings** (`Events`, `Encoding`, `Interleaving`, `CubicAgreement`,
`StackExactness`, `StackTies`, `ArrayExactness`, `OneSchedule`, with `Sorting` and
`TieBreaking`). `Encoder` is a class whose loops add constraints to a solver; each method is
proved to add exactly its axiom, for every assignment. Then the axioms are compared with
machines: the memory axioms are satisfiable for given data if and only if some interleaving
runs with it, the quadratic and the cubic encoding agree, and the stack and array axioms
are sound for real stacks and arrays of zeros, with the exact side conditions under which
they accept a run. In each machine disabled operations do nothing. At last one schedule
serves all: the whole encoding of a trace has a model with given data if and only if one
order of its events lets reads, pops and loads find their values together, no pop and no
load is disabled, and loads are clear of disabled stores (`OneSchedule.EncodeTrace`).

**Binary decision diagrams** (`Bdd`). A manager with a unique table and reference counts;
`apply`, `mk`, `make_var` and cascading removal keep the invariant that makes equality of
nodes decide equality of Boolean functions.

**Concurrent Kleene Algebra** (`Orders`, `PartialStrings`, `RefinementLaws`,
`RefinementEncoding`, `ProgramPowers`, `OperatorLaws`, `LeastFixedPoints`, `LazyPrograms`, and
for memory `MemoryLabels`, `ReleaseAcquire`, `ReleaseAcquireEncoding`, `ReleaseAcquireExactness`,
`SymbolicPrograms`, `MemoryRefinement`). Composition on transitive reductions, the laws of
refinement, the exactness of the refinement formula, the ripple-carry enumeration of powers,
the loop that looks for one power that takes a whole program, the lengths for which that
settles refinement of least fixed points, and the release-acquire axioms with guards. What
tells the two operators apart is proved for strings, programs and powers. Refinement of
memories is stated by events alone: each load takes the byte of the latest store before it
(`MemoryRefinement.MemoryRefinesMeans`).

**Constant propagation** (`Words`, `WordLaws`, `ConstantPropagation`, `ConstantFolding`,
`SymbolicArrays`, with `Arithmetic`). Lazy values `Internal<T>` keep the meaning of every
expression in which no shift is folded, and folding is right for all operands exactly when it
does not fold a shift the wrong way. What becomes a literal is known exactly
(`ConstantFolding.LiteralExactly`), and a chain of constants under one operator becomes a single
one. `Internal<T[]>` behaves like an array with arbitrary initial contents, and two of them over
one counter of symbols have nothing in common.

## Where the code and its description differ

- The comparison of least fixed points asks whether one refines the other
  (`include/cka.h:1083`), but the loop looks for a single power of the second program that
  takes all strings of the first (`include/cka.h:679-691`), which is more than is needed. A
  positive answer is right (`LeastFixedPoints.OnePowerSuffices`). For which lengths of strings
  a negative one is right for all programs is `LeastFixedPoints.LengthsDecide`, and inputs for
  which it is wrong are `LeastFixedPoints.NotOnePower`.
- The opcode range that the propagator takes for commutative monoids includes both shifts
  (`include/smt.h:342-355`, `include/nse_sequential.h:962-967`), which are neither
  commutative nor associative. The model follows the code; see
  `ConstantPropagation.PreservesExactly`.
- The backtracking checker is described as exploring paths up to feasibility, but keeps
  assertions and checked errors in the solver while it checks flipped prefixes, so feasible
  paths are lost: exactly when, is `ExplorationLoss.LosesExactly` and, for a solver that
  decides its queries, `DecidingSolver.DecidingLosesExactly`, and inputs are
  `LossyPrograms.AssertionLosesLeaf` and `LossyPrograms.CheckLosesLeaf`.
- The stack encoding has no serialization of pushes and pops of its own, and rejects runs
  in which two levels are popped at the same time: exactly when it accepts is
  `StackTies.StackEncodingDecided`, and an input is `StackTies.SimultaneousPopsRejected`.
- The stack and array encodings want a source for every pop, and the guard of every load,
  whether or not the operation is enabled (`include/crv.h:1384-1400`, `1529-1536`; reads are
  treated otherwise, `include/crv.h:1266`). So a single pop or load on a path not taken rules
  out every run: the condition is a conjunct of `StackExactness.StackEncodingExact`,
  `StackTies.StackEncodingDecided`, `ArrayExactness.ArrayEncodingExact` and
  `OneSchedule.EncodedIffRunnable`, and inputs are `StackTies.DisabledPopRejected` and
  `ArrayExactness.DisabledLoadRejected`.
- The array encoding asks a load without source to precede every store to its offset, even
  stores whose guard is false, so it rejects legitimate runs: exactly when it accepts is
  `ArrayExactness.ArrayEncodingExact`, and an input is `ArrayExactness.DisabledStoreRejected`.

## Model

| member | source | states |
|---|---|---|
| DecisionTrees.NextFlipsKeepsPending | include/nse_sequential.h:1515-1534 | after dropping frozen flips and turning the last one, the paths still to do are exactly those that were pending before: nothing is lost and nothing comes back |
| DecisionTrees.NextFlipsReachable | include/nse_sequential.h:1515-1534 | the flipped decisions again lead into the tree |
| SequentialChecker.Dfs.FindNextPath | include/nse_sequential.h:1515-1534 | the loop over frozen flips computes the next decisions, resets the index, and reports whether any are left |
| SequentialChecker.Dfs.Next | include/nse_sequential.h:1551-1559 | returns the direction at the index and advances it |
| SequentialChecker.Dfs.AppendFlip | include/nse_sequential.h:1541-1549 | appends one flip and advances the index |
| SequentialChecker.SequentialDfsChecker.CheckCondition | include/nse_sequential.h:1626-1640 | asks the solver about assertions, guards and the condition together and returns its answer; if the solver is conclusive the answer is unsat exactly if no input satisfies all of them, and an unsat answer is right in any case; the solver is left as it was |
| SequentialChecker.SequentialDfsChecker.AddGuard | include/nse_sequential.h:1616-1624 | appends one guard |
| SequentialChecker.SequentialDfsChecker.AddAssertion | include/nse_sequential.h:1791-1794 | an assertion is a guard with the meaning of the condition |
| SequentialChecker.SequentialDfsChecker.AddError | include/nse_sequential.h:1772-1779 | symbolic errors are recorded; a literal error on a path not known to be infeasible stops the run |
| SequentialChecker.SequentialDfsChecker.BranchTerm | include/nse_sequential.h:1643-1699 | replays a recorded flip, or tries the hinted side first; the flip is frozen exactly when the hinted side was refuted, and the path is given up exactly when both were; with a conclusive solver a new decision takes the hinted side if some input consistent with the guards does, else the other side if some input takes that, and gives up only if none does |
| SequentialChecker.SequentialDfsChecker.Branch | src/nse_sequential.cpp:49-67 | literals decide themselves; on an infeasible path every symbolic branch goes to "else"; the direction of a new decision is one that some input takes, if the solver is conclusive |
| SequentialChecker.SequentialDfsChecker.FindNextPath | include/nse_sequential.h:1871-1900 | moves the flips on, makes the checker feasible again and clears solver, guards and errors when there is another path |
| SequentialChecker.SequentialDfsChecker.Check | include/nse_sequential.h:1906-1925 | the answer is that of the solver to assertions, guards and the disjunction of the recorded errors: unsat exactly if no input satisfies all of these when the solver is conclusive, and only then in any case; without errors the answer is unsat and nothing is asked |
| PrunedExploration.BranchOnPath | include/nse_sequential.h:1643-1699 | one branch call keeps the state of the checker in step with the path followed, in replay, at a new decision, with one side refuted and with both refuted |
| PrunedExploration.NarrowedByBranch | include/nse_sequential.h:1667-1686 | a new flip, frozen when the other side is a dead end, drops no feasible path |
| PrunedExploration.FinishPath | include/nse_sequential.h:1871-1925 | at the end of a run the recorded flips are a leaf, or a dead end is known |
| PrunedExploration.Run | include/nse_sequential.h:1643-1699 | one run of the program under the checker ends at a leaf with these facts, or aborts on a literal error that every input on the path runs into |
| PrunedExploration.TodoShrinks | include/nse_sequential.h:1515-1534 | the set of paths still to do gets strictly smaller, so the exploration ends |
| PrunedExploration.Explore | include/nse_sequential.h:1515-1925 | main result: exploration with pruning terminates for every program, direction hint and solver whose unsat answers are right, visits no leaf twice and visits every leaf whose guards and assertions have a solution; if some input reaches an error it is found; and with a conclusive solver an error is found only if some input runs into one on a leaf visited, or the run was aborted on a path where every input fails |
| BacktrackChecker.NextFlipsFreezes | include/nse_sequential.h:1515-1534 | each step strictly decreases the number of unfrozen flips |
| BacktrackChecker.CutFlips | include/nse_sequential.h:2138-2158 | cutting back to the last guard at the address of the core leaves no more flips and strictly fewer unfrozen ones |
| BacktrackChecker.BacktrackDfsChecker.Branch | include/nse_sequential.h:2252-2282 | follows a recorded flip or appends an unfrozen "else", and adds the guard; records nothing once the path is known to be infeasible |
| BacktrackChecker.BacktrackDfsChecker.CutBack | include/nse_sequential.h:2138-2173 | the popping loop followed by one depth-first step and one negated guard |
| BacktrackChecker.BacktrackDfsChecker.RepeatCheck | include/nse_sequential.h:2120-2175 | the repeated checks end, at the first prefix that is not refuted or with no flips left |
| BacktrackChecker.BacktrackDfsChecker.AddAssertion | src/nse_sequential.cpp:9-13 | appends exactly the term of the condition |
| BacktrackChecker.BacktrackDfsChecker.AddError | src/nse_sequential.cpp:15-36 | records exactly one term: the conjunction of all guards so far with the condition, for literal conditions too |
| BacktrackChecker.BacktrackDfsChecker.BacktrackCheck | include/nse_sequential.h:2099-2176 | adds the assertions to the solver; without a core nothing else changes, with one the flips move on to the result of the search |
| BacktrackChecker.BacktrackDfsChecker.FindNextPath | include/nse_sequential.h:2331-2358 | goes on depth-first when no core was found, otherwise to exactly the result of the search; a check made before is not repeated |
| BacktrackChecker.BacktrackDfsChecker.Check | include/nse_sequential.h:2364-2378 | unsat means that the path is infeasible or that no input satisfies assertions and an error; the whole new state, with assertions and errors still in the solver |
| PathConditions.PathCondition | include/nse_sequential.h:2252-2282 | an input follows a complete path and meets its assertions exactly if the collected guards and assertions hold |
| PathConditions.ErrorCondition | src/nse_sequential.cpp:15-36 | an input that follows a complete path runs into an error on it exactly if one of the recorded errors holds |
| PathConditions.ErrorsAreStops | src/nse_sequential.cpp:15-36 | for any input, on the path or not, some recorded error holds exactly if the input follows the path until it runs into an error |
| SearchOutcome.CoreRefutes | include/smt.h:1498-1523 | a reported core refutes every list of guards that begins like the one checked, up to the end of the core |
| SearchOutcome.CutExact | include/nse_sequential.h:2138-2173 | one cut back to the address of the core, with the flip after it, changes neither whether a leaf survives nor which answers it needs |
| SearchOutcome.SearchExact | include/nse_sequential.h:2120-2175 | main result: for a reliable solver that reports every conflict asked about, the repeated search keeps a leaf that leaves the path at flip `i` if and only if the path condition, or some prefix flipped at an unfrozen position from `i` on, is consistent with what is asserted |
| SearchOutcome.SearchNarrows | include/nse_sequential.h:2120-2175 | the search brings back no leaf that was done |
| SearchOutcome.SearchReachable | include/nse_sequential.h:2120-2175 | the decisions it ends with lead into the tree |
| ExplorationLog.VisitsOnce | include/nse_sequential.h:2331-2358 | an exploration, with or without checks in between, visits no leaf twice |
| ExplorationLoss.MoveKeeps | include/nse_sequential.h:2331-2378 | going on to the next path keeps a leaf that survives what the path leaves in the solver, for every reliable solver |
| ExplorationLoss.NothingLost | include/nse_sequential.h:2099-2378 | without a blind spot every feasible leaf that is to do is visited |
| ExplorationLoss.SpoilerLoses | include/nse_sequential.h:2099-2378 | for every blind spot there is a reliable solver under which the exploration gets there and never visits the leaf behind it |
| ExplorationLoss.LosesExactly | include/nse_sequential.h:2099-2378 | main result: an exploration, with or without a check after every path, visits all feasible leaves under every reliable solver if and only if the program has no blind spot, that is, no complete path whose assertions (and errors, if checked) refute it and all its later turned prefixes although a feasible leaf lies behind one of its "else" decisions |
| NonChronologicalExploration.ReachedIsVisited | include/nse_sequential.h:2099-2358 | without checks in between, a leaf reached by an input that meets all assertions of the program is visited |
| NonChronologicalExploration.NoAssertionsNoLoss | include/nse_sequential.h:2111-2113 | without assertions and checks in between nothing is lost |
| NonChronologicalExploration.ChecksFindErrors | include/nse_sequential.h:2364-2378 | main result: if some input meets all assertions and runs into an error, then exploration with a check after every path gets an answer other than unsat, for every reliable solver that reports no core when the asserted terms are inconsistent by themselves |
| NonChronologicalExploration.FindsAreStops | include/nse_sequential.h:2099-2378 | if the exploration specified finds an error and the solver is conclusive, some input meets the assertions of a path visited and runs into an error on it |
| NonChronologicalExploration.Run | include/nse_sequential.h:2252-2282 | one run of the program ends at the leaf that the decisions lead to, with exactly the flips, guards, assertions and errors of that path |
| NonChronologicalExploration.Explore | include/nse_sequential.h:2099-2358 | main result: exploration without checks terminates and its log is exactly the specified one; no leaf is visited twice, every leaf reached under all assertions is visited, and the errors of the log cover every error such an input runs into |
| NonChronologicalExploration.ExploreChecking | include/nse_sequential.h:2099-2378 | the same with a check after every path: the log and whether an error was found are exactly those specified; with a conclusive solver an error is found only if some input that meets the assertions runs into one on a path of the log |
| DecidingSolver.MoveExact | include/nse_sequential.h:2331-2378 | with a solver that reports a core exactly when guards are needed for a conflict, going on to the next path loses a leaf if and only if the path and all its later turned prefixes are refuted |
| DecidingSolver.VisitsAreMet | include/nse_sequential.h:2099-2378 | main result: with such a solver, whichever cores it reports and whatever the addresses are, the leaves visited are those given by a recursion over the program alone |
| DecidingSolver.DecidingLosesExactly | include/nse_sequential.h:2099-2378 | main result: with such a solver all feasible leaves are visited if and only if no leaf met in that recursion skips one |
| LossyPrograms.AssertionLosesLeaf | include/nse_sequential.h:2110-2127 | counterexample: exploring a program with one assertion never visits a feasible leaf, under a solver that blames guards only where they are needed |
| LossyPrograms.CheckLosesLeaf | include/nse_sequential.h:2364-2378 | counterexample without assertions: after a check the satisfiable error `x == 3` stays in the solver, and exploration with checks never visits a feasible leaf |
| LossyPrograms.LostByAll | include/nse_sequential.h:2110-2127 | both programs lose a feasible leaf under every solver that decides its queries |
| Encoding.Encoder.Time | include/crv.h:1196-1206 | the first use of a time symbol puts it after the epoch |
| Encoding.Encoder.SupTime | include/crv.h:1219-1231 | the same for the supremum of a read |
| Encoding.Encoder.UnsafeAdd | include/crv.h:1208-1214 | adds one constraint |
| Encoding.QuadraticPair | include/crv.h:1251-1264 | the two implications for one write and one read |
| Encoding.Encoder.EncodeRead | include/crv.h:1241-1267 | for every assignment, the conjuncts for one read say that its supremum is the time of the write it reads from and bounds all enabled earlier writes |
| Encoding.Encoder.EncodeReadFrom | include/crv.h:1234-1270 | the same over all addresses |
| Encoding.Encoder.EncodeReadCubic | include/crv.h:1282-1303 | the published read-from conjuncts of one read |
| Encoding.Encoder.EncodeReadFromCubic | include/crv.h:1275-1306 | the same over all addresses |
| Encoding.FromReadTerm | include/crv.h:1328-1334 | one from-read implication |
| Encoding.Encoder.EncodeFromRead | include/crv.h:1309-1340 | from-read for all reads and pairs of different writes |
| Encoding.Encoder.EncodeWriteSerialization | include/crv.h:1344-1364 | writes to one address have different times |
| Encoding.Encoder.EncodeThreadOrder | include/crv.h:1942-1963 | neighbouring events of each thread are in program order |
| Encoding.Encoder.EncodeMemoryConcurrency | include/crv.h:1366-1374 | the default build: quadratic read-from and write serialization |
| Encoding.Encoder.EncodeMemoryConcurrencyCubic | include/crv.h:1366-1374 | the other build: cubic read-from, from-read and write serialization |
| Encoding.PopTerm | include/crv.h:1390-1397 | one pop-from implication |
| Encoding.Encoder.EncodePopFrom | include/crv.h:1376-1403 | each pop flows from an enabled earlier push of its value |
| Encoding.Encoder.EncodePopFromInjectivity | include/crv.h:1406-1425 | different pops flow from different pushes |
| Encoding.LifoTerm | include/crv.h:1453-1466 | one implication on two pushes and two pops |
| Encoding.LifoSomePop | include/crv.h:1469-1475 | a later enabled push below a pop is popped |
| Encoding.Encoder.EncodeStackLifoOrder | include/crv.h:1427-1481 | LIFO order over all pushes and pops |
| Encoding.Encoder.EncodeStackApi | include/crv.h:1484-1490 | the three stack encodings together |
| Encoding.ZeroTerm | include/crv.h:1514-1536 | a load without source gets zero and precedes every store to its offset |
| Encoding.LoadMeaning | include/crv.h:1501-1537 | the conjuncts of one load mean the load-from axiom |
| Encoding.Encoder.EncodeLoadFrom | include/crv.h:1494-1540 | load-from over all arrays |
| Encoding.Encoder.EncodeFromLoad | include/crv.h:1543-1574 | from-load over all arrays |
| Encoding.Encoder.EncodeStoreSerialization | include/crv.h:1577-1597 | stores to one array have different times |
| Encoding.Encoder.EncodeArrayApi | include/crv.h:1599-1605 | the three array encodings together |
| Encoding.Encoder.Encode | include/crv.h:1965-1974 | the models of the solver are exactly the assignments that meet guard, thread order, memory, stack and array axioms with all times after the epoch |
| Interleaving.MemoryIsLastWrite | include/crv.h:1234-1270 | running the writes of a schedule leaves in memory the value of the last enabled write |
| Interleaving.AssignmentGivesRun | include/crv.h:1234-1270 | sorting events by time, writes before reads on ties, turns a satisfying assignment into a run that keeps thread order and in which every enabled read returns the last enabled write to its address |
| Interleaving.SourceIsLast | include/crv.h:1257-1264 | the write a read flows from is the last enabled one before it in that schedule |
| Interleaving.RunGivesAssignment | include/crv.h:1234-1270 | every run extends to a satisfying assignment by choosing times, sources and suprema |
| Interleaving.SatisfiableIffRunnable | include/crv.h:1234-1270 | main result: for given data, memory and thread constraints are satisfiable if and only if the program has a run with that data |
| Interleaving.EncodeProgram | include/crv.h:1965-1974 | the same for the constraints that the loops of the encoder hand to the solver |
| CubicAgreement.CubicGivesQuadratic | include/crv.h:1275-1340 | a model of the cubic encoding becomes one of the quadratic encoding with the same times |
| CubicAgreement.QuadraticGivesCubic | include/crv.h:1234-1270 | a model of the quadratic encoding becomes one of the cubic encoding by moving reads strictly between neighbouring times, still in thread order |
| CubicAgreement.EncodingsAgree | include/crv.h:1234-1340 | main result: with the same values, guards and read-from relation, one encoding is satisfiable if and only if the other is |
| CubicAgreement.EncodeBothBuilds | include/crv.h:1366-1374 | the same for the constraints that the loops of both builds hand to the solver |
| StackExactness.RunHolds | include/crv.h:1376-1481 | a run of a real stack holds exactly the enabled pushes not yet popped, oldest first |
| StackExactness.PopFindsSource | include/crv.h:1427-1481 | under the axioms the source of a pop is on top of the stack |
| StackExactness.EncodingRuns | include/crv.h:1376-1481 | under the axioms the operations run on a real stack |
| StackExactness.RunIsEncoded | include/crv.h:1376-1481 | a run of a real stack satisfies the axioms |
| StackExactness.StackEncodingExact | include/crv.h:1376-1481 | a step to the general case: with different times for the operations of a stack, the axioms hold if and only if no pop is disabled and running the enabled operations in time order makes every pop return the top element, pushed by its source |
| StackExactness.TopsFlow | include/crv.h:1376-1481 | sources can be chosen for every run in which each enabled pop finds its value on top |
| StackTies.EncodedRuns | include/crv.h:1376-1481 | for any times, a satisfying assignment runs on a real stack when simultaneous pops come before pushes and simultaneous pushes in the order opposite to their pops |
| StackTies.StackEncodingDecided | include/crv.h:1376-1481 | main result, for any times: the axioms hold if and only if no pop is disabled, the operations run on a real stack for some way of breaking ties like that, and no two levels of the stack are popped at the same time |
| StackTies.DisabledPopRejected | include/crv.h:1384-1400 | counterexample: one pop whose guard is false violates the axioms in every model |
| StackTies.SimultaneousPopsRejected | include/crv.h:1427-1481 | counterexample: two levels popped at the same time run on a real stack but violate the axioms |
| ArrayExactness.ContentsIsLastHit | include/crv.h:1494-1540 | array contents are the value of the last enabled store to the offset |
| ArrayExactness.ContentsUntouched | include/crv.h:1514-1536 | elements no enabled store has hit are zero |
| ArrayExactness.FlowIsLatest | include/crv.h:1494-1574 | the store a load flows from is the latest enabled one to its offset |
| ArrayExactness.ArrayEncodingSound | include/crv.h:1494-1597 | main result: in every satisfying assignment each load returns the latest enabled earlier store to its offset, or zero if there is none |
| ArrayExactness.ArrayEncodingExact | include/crv.h:1494-1597 | the flow of loads can be chosen to satisfy the axioms if and only if stores are serialized, no load is disabled, loads return the contents, and no store to the offset (enabled or not, when there is no source) is in the way at or before the time of the load |
| ArrayExactness.DisabledLoadRejected | include/crv.h:1529-1536 | counterexample: one load whose guard is false violates the axioms in every model |
| ArrayExactness.DisabledStoreRejected | include/crv.h:1514-1536 | counterexample: a load of zero after a store whose guard is false returns the contents of the array but violates the axioms for every choice of sources |
| OneSchedule.AssignmentGivesSchedule | include/crv.h:1965-1974 | a satisfying assignment gives one order of all events in which threads are in program order and reads, pops and loads find their values together |
| OneSchedule.ScheduleGivesAssignment | include/crv.h:1965-1974 | every such order extends to a satisfying assignment of times, suprema and sources |
| OneSchedule.EncodedIffRunnable | include/crv.h:1965-1974 | main result: for given data, thread, memory, stack and array axioms are satisfiable together if and only if one schedule runs memory, all stacks and all arrays, no pop and no load is disabled, and loads are clear of disabled stores |
| OneSchedule.EncodeTrace | include/crv.h:1965-1974 | the same for the constraints that the encoder hands to the solver for a whole trace |
| Bdd.Independent | src/bdd.cpp:98-119 | a BDD does not depend on variables above its top variable |
| Bdd.ConstantsDiffer | src/bdd.cpp:85-92 | the two constants denote different functions |
| Bdd.Canonical | src/bdd.cpp:98-119 | main result: in a well-formed manager two live nodes denote the same function if and only if they are the same node |
| Bdd.HandlesKeepAlive | src/bdd.cpp:17-30 | nodes reachable from a handle are live |
| Bdd.BDDManager.constructor | src/bdd.cpp:85-92 | the two constants, each with one handle |
| Bdd.BDDManager.Share | src/bdd.cpp:98-119 | a new handle adds one reference and changes no denotation |
| Bdd.BDDManager.RemoveReference | src/bdd.cpp:17-30 | giving up a handle, with all cascading removals, keeps the manager valid and every other live node as it was |
| Bdd.BDDManager.Release | src/bdd.cpp:23-29 | a node that loses its last reference leaves the unique table and gives up its children |
| Bdd.BDDManager.Mk | src/bdd.cpp:98-119 | returns a live node that denotes the choice between its children: an existing one, the common child, or a new one |
| Bdd.BDDManager.MakeVar | src/bdd.cpp:32-38 | a fresh variable below all others, whose node denotes its value; older nodes keep their meaning |
| Bdd.BDDManager.Apply | src/bdd.cpp:131-156 | terminates on any two live nodes and returns a live node, with top variable no smaller than the smaller operand, that denotes the pointwise application; every existing node keeps its meaning |
| Bdd.BDDManager.Equal | src/bdd.cpp:45-48 | denotes equivalence |
| Bdd.BDDManager.Xor | src/bdd.cpp:55-58 | denotes exclusive or |
| Bdd.BDDManager.Not | src/bdd.cpp:60-63 | denotes negation |
| Bdd.BDDManager.And | src/bdd.cpp:70-73 | denotes conjunction |
| Bdd.BDDManager.Or | src/bdd.cpp:80-83 | denotes disjunction |
| Bdd.BDDManager.IsSame | src/bdd.cpp:98-119 | in every reachable state, comparing two handles decides equality of the two functions |
| PartialStrings.BuildCoproduct | include/cka.h:95-137 | the constructor loops build the disjoint union of labels, renumbered edges and incomparable pairs, and the label bounds |
| PartialStrings.RecomputeExtremals | include/cka.h:145-149 | exactly the ends of stored edges lose their extremal flags |
| PartialStrings.Maximals | include/cka.h:218-226 | the events whose flag is still set, in ascending order |
| PartialStrings.Minimals | include/cka.h:205-213 | the same for minimal events |
| PartialStrings.FlagsExact | include/cka.h:138-149 | the flags are unset exactly on events with something above, or below, them in the full order |
| PartialStrings.Concurrent | src/cka.cpp:32-45 | concurrent composition is computed, and stays valid |
| PartialStrings.Sequential | src/cka.cpp:47-60 | sequential composition is computed, and stays valid |
| PartialStrings.ParClosure | src/cka.cpp:32-45 | the order of `x | y` is the order of `x` and the renumbered order of `y` |
| PartialStrings.SeqClosure | src/cka.cpp:47-60 | the order of `x , y` is the order of `x`, the renumbered order of `y` and all pairs across, although only maximal and minimal events are linked |
| PartialStrings.SingleValid | include/cka.h:159-177 | a single event is a valid partial string |
| PartialStrings.EmptyValid | include/cka.h:73-85 | so is the empty one |
| PartialStrings.CompositionsValid | src/cka.cpp:32-60 | both compositions keep the invariant: strict order, stored edges a transitive reduction, exact extremal flags and label bounds, and two different events ordered one way or listed as incomparable, never both |
| RefinementLaws.RefinesTransitive | include/cka.h:1038-1073 | refinement is transitive |
| RefinementLaws.SeqRefinesPar | include/cka.h:281-290 | sequential composition refines concurrent composition |
| RefinementLaws.ParMonotone | src/cka.cpp:32-45 | concurrent composition is monotone in both arguments |
| RefinementLaws.SeqMonotone | src/cka.cpp:47-60 | sequential composition is monotone in both arguments |
| RefinementLaws.Exchange | src/cka.cpp:32-60 | `(u | v) , (w | z)` refines `(u , w) | (v , z)`, for all partial strings, by renumbering the middle events |
| RefinementLaws.EmptyUnit | include/cka.h:152-157 | the empty string is exactly a left unit of both compositions |
| RefinementLaws.SeqAssociative | src/cka.cpp:47-60 | sequential composition is associative on labels and full order |
| RefinementLaws.ParAssociative | src/cka.cpp:32-45 | so is concurrent composition |
| RefinementEncoding.EncodeStrictPartialOrder | include/cka.h:816-861 | for every model, the conjuncts say: stored edges hold, irreflexive, asymmetric, and transitive on triples of different events |
| RefinementEncoding.EncodeTransitivityTo | include/cka.h:846-858 | the innermost loop with its skipped triples |
| RefinementEncoding.EncodeIncomparables | include/cka.h:879-889 | listed pairs are unordered both ways |
| RefinementEncoding.EncodeLabels | include/cka.h:936-946 | the labelling of `x` |
| RefinementEncoding.EncodeMonotone | include/cka.h:950-969 | monotonicity on the stored edges of `y` only |
| RefinementEncoding.EncodeBijection | include/cka.h:973-993 | images lie in range and are distinct |
| RefinementEncoding.EncodeLabelPreservation | include/cka.h:995-1003 | each image has the label of its event |
| RefinementEncoding.EncodeMorphism | include/cka.h:948-1005 | the last three together, nothing but edges for an empty `y` |
| RefinementEncoding.ModelOrderIsExact | include/cka.h:816-889 | every model agrees with the full order of `x` on every pair of events |
| RefinementEncoding.EdgesSuffice | include/cka.h:956-959 | a map that keeps the stored edges keeps the full order of `y` |
| RefinementEncoding.ModelGivesMorphism | include/cka.h:948-1005 | every model contains a label-preserving injection that maps the order of `y` into that of `x` |
| RefinementEncoding.MorphismGivesModel | include/cka.h:936-1005 | every such injection is part of a model |
| RefinementEncoding.EncodingExact | include/cka.h:816-1005 | main result: the formula is satisfiable if and only if `x` refines `y` |
| RefinementEncoding.InjectionsAreOnto | include/cka.h:973-993 | an injection between equally many events is a bijection |
| RefinementEncoding.SameLabels | include/cka.h:713-724 | refinement keeps the set of labels |
| RefinementEncoding.ShortcutIsSafe | include/cka.h:713-724 | the comparison of lengths and label bounds never rejects a real refinement |
| RefinementEncoding.Refinement.Shortcut | include/cka.h:713-724 | rejects exactly on a mismatch and counts it |
| RefinementEncoding.QueryExact | include/cka.h:1039-1073 | the query built from both strings is satisfiable exactly for refinements |
| RefinementEncoding.Refinement.Check | include/cka.h:1039-1073 | yes exactly if nothing mismatches and the solver answers "sat" to the query, for every solver; with a solver that makes no mistakes a positive answer is a refinement, and a refinement gets one unless the solver gives up |
| ProgramPowers.CommaLawful | src/cka.cpp:47-60 | sequential composition adds lengths, keeps validity, has the empty string as left unit, is monotone and regroups |
| ProgramPowers.BarLawful | src/cka.cpp:32-45 | the same for concurrent composition |
| ProgramPowers.BowtieComposes | src/cka.cpp:32-85 | what tells the operators apart: `,` orders the events of `x` before all those of `y`, `|` orders no event of one with one of the other, and both keep the orders and labels of the two |
| ProgramPowers.ProductsCompose | src/cka.cpp:71-101 | the strings of a product are such compositions of one string each, and every pair has one |
| OperatorLaws.OperatorsDiffer | include/cka.h:1083 | `x , y` refines `x | y`, and `x | y` refines `x , y` exactly if one of them is empty |
| OperatorLaws.CommaRefinesBar | src/cka.cpp:71-101 | the same direction for programs |
| OperatorLaws.ProgramExchange | src/cka.cpp:71-101 | the exchange law on programs: `(U | V) , (W | Z)` refines `(U , W) | (V , Z)` |
| OperatorLaws.PowersOfCommaRefineBar | include/cka.h:671-691 | each sequential power refines the concurrent one |
| OperatorLaws.PairIsConcurrentPower | include/cka.h:671-691 | for every string `a` with an event, `a | a` refines a power of `a` under `|` and none under `,` |
| ProgramPowers.ProductsMembers | src/cka.cpp:71-101 | the product of two programs holds exactly the pairwise compositions |
| ProgramPowers.ProductsMonotone | src/cka.cpp:71-101 | products are monotone under refinement of programs |
| ProgramPowers.ProductsAssociate | src/cka.cpp:71-101 | products regroup up to refinement |
| ProgramPowers.PowersAdd | include/cka.h:679-683 | the product of two powers refines the power of the sum |
| ProgramPowers.PowersRefine | include/cka.h:671-691 | if `X` refines a power of `Y`, every power of `X` refines a power of `Y` |
| ProgramPowers.PowerLengths | include/cka.h:358-368 | strings of the `n`th power are at least `n` times as long as the shortest string |
| ProgramPowers.LargePowersFail | include/cka.h:675-676 | no power beyond the quotient of longest and shortest length can be refined |
| ProgramPowers.PowerIsChosen | include/cka.h:503-510 | a string is in the eager power if and only if some index vector composes it, starting from the empty string |
| ProgramPowers.RankInjective | include/cka.h:515-532 | different vectors of digits write different numbers |
| ProgramPowers.IncrementRank | include/cka.h:515-532 | the ripple-carry step adds one, or wraps to zeros exactly after the largest number |
| ProgramPowers.EnumerationExact | include/cka.h:498-539 | counting from zeros visits every index vector exactly once |
| ProgramPowers.CounterWraps | include/cka.h:512-535 | after as many steps as there are vectors all digits are zero again |
| LazyPrograms.ComposePrograms | src/cka.cpp:71-101 | the nested loops compute all compositions, sequential or concurrent as the operator says: each string is ordered like one of `X` and one of `Y` and, under `,`, across them, and every pair occurs |
| LazyPrograms.Choose | src/cka.cpp:103-120 | the two loops concatenate |
| LazyPrograms.ChoiceIsJoin | src/cka.cpp:103-120 | a choice refines a program exactly when both sides do |
| LazyPrograms.MinLength | include/cka.h:358-368 | the length of a shortest string |
| LazyPrograms.MaxLength | include/cka.h:373-383 | the length of a longest string |
| LazyPrograms.UintPow | src/cka.cpp:9-29 | squaring computes the power modulo the word size |
| LazyPrograms.LazyProgram.constructor | include/cka.h:558-564 | starts with one zero digit |
| LazyPrograms.LazyProgram.Size | include/cka.h:572-575 | number of strings, modulo the word size |
| LazyPrograms.LazyProgram.Extend | include/cka.h:578-584 | one more digit, all zero |
| LazyPrograms.PartialStringIterator.Reset | include/cka.h:493-496 | all digits zero |
| LazyPrograms.PartialStringIterator.Next | include/cka.h:499-539 | hands out the string of the current vector, moves to the next vector, and is exhausted exactly after the last one |
| LazyPrograms.PartialStringIterator.Advance | include/cka.h:512-535 | the in-place carry loop computes the incremented vector |
| LazyPrograms.AcceptsProgramExact | include/cka.h:651-669 | with a solver that makes no mistakes, accepted programs refine; with one that also always answers, exactly those do |
| LazyPrograms.ProgramChecker.CheckOne | include/cka.h:656-662 | the inner loop: yes exactly if some string of `Y` is accepted, for every solver |
| LazyPrograms.ProgramChecker.Check | include/cka.h:651-669 | yes exactly if each string of `X` is accepted, for every solver; refinement of programs, exactly, when the solver always answers |
| LazyPrograms.ProgramChecker.LazyCheckOne | include/cka.h:627-641 | all strings of the power are tried before the answer is no; the digits are zero again afterwards |
| LazyPrograms.ProgramChecker.LazyCheck | include/cka.h:622-648 | answers exactly like the check against the eagerly composed power, for every solver, even one that errs or gives up |
| LazyPrograms.ProgramChecker.CheckPowersEagerly | include/cka.h:679-683 | the eager loop: yes exactly if one of the first `j + 1` powers is accepted, and then one of them is refined |
| LazyPrograms.ProgramChecker.CheckPowers | include/cka.h:684-690 | the lazy loop gives the same answer for every solver; a positive one means that one of the first `j + 1` powers is refined |
| LazyPrograms.ProgramChecker.CheckLfp | include/cka.h:671-691 | true if and only if one power of `Y`, out of infinitely many, takes all strings of `X`; then the least fixed point of `X` refines that of `Y`, and when the lengths of the strings pass the test `OneSplit`, false means that it does not |
| LeastFixedPoints.LfpIsLeast | include/cka.h:389-410 | the union of all powers is closed under composition with the program, and is the least such set that contains it |
| LeastFixedPoints.LfpByStrings | include/cka.h:1083-1089 | one least fixed point refines another if and only if each string of the first program refines a string of some power of the second |
| LeastFixedPoints.OnePowerSuffices | include/cka.h:671-691 | if one power takes all strings, the least fixed point refines |
| LeastFixedPoints.OneSplitAgrees | include/cka.h:671-691 | when the lengths pass the test, one power takes all strings exactly if the least fixed point refines |
| LeastFixedPoints.LengthsDecide | include/cka.h:671-691 | main result: looking for one power is right for all programs with strings of given lengths if and only if the lengths pass the test: some length is no sum of lengths of `Y`, or any two strings of `X` can only be sums of the same number of them |
| LeastFixedPoints.OneStringSplits | include/cka.h:671-691 | the test succeeds for a single string |
| LeastFixedPoints.OneLengthSplits | include/cka.h:671-691 | the test succeeds when all strings of either program have one length |
| LeastFixedPoints.NotOnePower | include/cka.h:679-691 | counterexample: for every string `a` with events, `a` and its composition with itself against `a` refine as least fixed points, but no single power takes both |
| LeastFixedPoints.EnoughPowers | include/cka.h:675-691 | trying powers up to the quotient is enough |
| LeastFixedPoints.SuccessCoversAllPowers | include/cka.h:671-691 | success carries over to every power of `X` |
| MemoryLabels.LabelsDecode | src/cka.cpp:143-235 | packing kind, byte and address into a label of any of the six kinds loses nothing |
| MemoryLabels.FlagsDecide | src/cka.cpp:143-235 | the tests for the kinds of labels tell the six kinds apart |
| MemoryLabels.AddressMonotone | include/cka.h:1210-1218 | a larger label has no smaller address |
| ReleaseAcquire.Guard | include/cka.h:1284-1325 | the guard loop ends and its conjunction says that all assumptions on the way hold |
| ReleaseAcquire.StoreLoadFilter | include/cka.h:1203-1245 | files exactly the release stores and acquire loads under their addresses, in ascending order |
| ReleaseAcquireEncoding.FromReadTerm | include/cka.h:1457-1471 | one from-read implication with the guard of the later store |
| ReleaseAcquireEncoding.SynchronizeTerm | include/cka.h:1440-1455 | one synchronizes-with implication with the guard of the store |
| ReleaseAcquireEncoding.EncodeReads | include/cka.h:1429-1472 | all stores of one load; stores that contradict its assumption are skipped |
| ReleaseAcquireEncoding.EncodeSomeReadFrom | include/cka.h:1474-1516 | the some-read-from clause in all its cases: early unsat, blocked guard, contradicted assumption, guarded or not |
| ReleaseAcquireEncoding.EncodeLoad | include/cka.h:1416-1517 | the axioms of one load |
| ReleaseAcquireEncoding.EncodeModificationOrder | include/cka.h:1519-1523 | stores to one address are totally ordered |
| ReleaseAcquireEncoding.EncodeValues | include/cka.h:1408-1414 | stores have the values they write |
| ReleaseAcquireEncoding.EncodeReleaseAcquire | include/cka.h:1347-1543 | the conjuncts mean the axioms over all events; an early "unsatisfiable" means that no model meets them |
| ReleaseAcquireExactness.LoadsReadLatestStore | include/cka.h:1370-1471 | main result: in every model over a strict order, an enabled load whose assumption holds takes its value from an enabled store to its address that happens before it and is the latest such store; without guards the assumption always holds |
| ReleaseAcquireExactness.ReleaseAcquireExact | include/cka.h:1347-1543 | given order and values, sources can be chosen to satisfy the axioms if and only if it is an execution: every enabled load is contradicted or reads the latest store |
| ReleaseAcquireExactness.ModelIsExecution | include/cka.h:1347-1543 | every model is an execution |
| ReleaseAcquireExactness.ExecutionGivesModel | include/cka.h:1347-1543 | every execution is a model |
| SymbolicPrograms.SingleEventValid | include/cka.h:1633-1637 | a single event is a valid symbolic program |
| SymbolicPrograms.Nest | include/cka.h:1642-1682 | the constructor loops renumber guards and unguarded events and keep the invariants |
| SymbolicPrograms.ComposeSymbolic | src/cka.cpp:256-264 | both compositions of symbolic programs: events and labels are composed with all pairs across ordered under `,` and none under `|`, and the invariants are kept |
| SymbolicPrograms.IfThen | src/cka.cpp:266-277 | the body comes after the assumption, which becomes the guard of its unguarded events; the invariants are kept |
| SymbolicPrograms.UnguardedBounds | include/cka.h:1626-1627 | no more unguarded events than events, none only in the empty program |
| SymbolicPrograms.ProgramIsWellGuarded | include/cka.h:1620-1621 | guards are assumptions at smaller events, so the guard loop ends |
| SymbolicPrograms.ConditionalRuns | src/cka.cpp:266-277 | an event of the body runs exactly when the load reads the byte and the event runs in the body |
| SymbolicPrograms.NestedRuns | include/cka.h:1642-1682 | composition changes for no event whether it runs |
| MemoryRefinement.ModelGivesExecution | include/cka.h:1565-1595 | from any joint model: a renumbering under which `x` refines `y` and every acquire load of `y` has the byte of a release store before it, all other stores to the address coming before that store or after the load |
| MemoryRefinement.MemoryRefinesMeans | include/cka.h:1429-1595 | refinement of memories, defined with the machine of enabled stores and loads, means exactly this for all events of `y`, the last one included: labels are kept and order is kept, stores to one address are ordered, and each load takes the byte of the latest store before it, where values fit what stores write and assumptions demand |
| MemoryRefinement.MemoryEncodingExact | include/cka.h:1565-1595 | main result: axioms and refinement formula together are satisfiable if and only if some renumbering makes `x` refine `y` and the order of `x` explains every load of `y` by the latest store to its address |
| MemoryRefinement.Check | include/cka.h:1581-1595 | a positive answer is such a refinement, stated by events, labels and the order of `x`; such a refinement gets a positive answer unless the solver gives up |
| Words.Commutes | include/nse_sequential.h:962-967 | addition, multiplication, the bitwise and the Boolean operators commute on words of any width |
| Words.Associates | include/nse_sequential.h:962-967 | and are associative |
| WordLaws.SubUndoesAdd | include/nse_sequential.h:60-99 | subtraction undoes addition on all words |
| WordLaws.AddZero | include/nse_sequential.h:1334-1335 | zero is the unit of both, and a word less itself is zero |
| WordLaws.MulDistributes | include/nse_sequential.h:1335-1336 | multiplication distributes over addition modulo the word size |
| WordLaws.MulUnits | include/nse_sequential.h:1336 | zero and one under multiplication |
| WordLaws.Complements | include/nse_sequential.h:1162-1222 | a word and its negation add up to zero, a word and its complement to the largest word |
| WordLaws.ShiftLeftDoubles | include/nse_sequential.h:1352 | each step of a shift to the left doubles |
| WordLaws.ShiftLeftByZero | include/nse_sequential.h:1352 | a shift by zero does nothing and a shift by one is a word added to itself |
| WordLaws.ShiftRightBounds | include/nse_sequential.h:1353 | a shift to the right is the quotient by the power of two |
| WordLaws.ShiftsCancel | include/nse_sequential.h:1352-1353 | without overflow the shift to the right undoes the shift to the left |
| WordLaws.LessOrEqual | include/nse_sequential.h:1342 | `a <= b` is one exactly if some number added to `a` gives `b`, and zero otherwise |
| WordLaws.ComparisonsFollow | include/nse_sequential.h:1339-1344 | the other comparisons in terms of this one |
| WordLaws.TruthTables | include/nse_sequential.h:1345-1346 | the Boolean operators as arithmetic on zero and one |
| WordLaws.BitsAddUp | include/nse_sequential.h:1349-1351 | exclusive or plus twice the conjunction is the sum, and the disjunction is exclusive or plus conjunction |
| WordLaws.BitUnits | include/nse_sequential.h:1349 | conjunction of a word with itself and with zero |
| ConstantPropagation.LazyApplyCorrect | include/nse_sequential.h:988-1028 | a literal applied to a literal, plain or lazy value: annihilator, new pending operator or folding, all with the right value |
| ConstantPropagation.ApplyCorrect | include/nse_sequential.h:1075-1161 | one operator on two values keeps its meaning unless it misfolds, with operands swapped or not |
| ConstantPropagation.PreservesExactly | include/nse_sequential.h:962-1028 | for each operator and each shape of operands, folding is right on all values if and only if it is no shift of a literal and no literal shift of a pending shift |
| ConstantPropagation.LiteralLeftFails | include/nse_sequential.h:1014-1028 | a literal on the left of a shift changes sides: wrong for some value of every shape |
| ConstantPropagation.PendingShiftFails | include/nse_sequential.h:992-1000 | two literal shift distances are shifted instead of added |
| ConstantPropagation.TruthStays | include/nse_sequential.h:969-985 | literals of Boolean expressions stay truth values |
| ConstantPropagation.SimplifyCorrect | include/nse_sequential.h:508-558 | main result: for every well-typed expression in which no shift misfolds, the term extracted from the simplified value has the value of the expression under every assignment |
| ConstantFolding.LiteralExactly | include/nse_sequential.h:988-1161 | main result: an expression becomes a literal if and only if its operands determine its value without looking at symbols or through unary operators (known operands, a false conjunct, a true disjunct), and the literal is that value |
| ConstantFolding.ConstantsFold | include/nse_sequential.h:1030-1116 | an expression of binary operators over constants becomes the literal of its value |
| ConstantFolding.Annihilates | include/nse_sequential.h:969-995 | a false conjunct or a true disjunct gives a literal whatever the other operand is, on either side |
| ConstantFolding.LiteralsMerge | include/nse_sequential.h:996-1028 | two literals under one operator become one pending literal over the same term, on whichever sides they stand |
| ConstantFolding.ChainCollapses | include/nse_sequential.h:508-558 | main result: however many constants a chain of one operator over a symbol has, and in whatever order, one literal stays pending and the term has at most one operator |
| ConstantPropagation.WithoutShiftsNeverMisfolds | include/nse_sequential.h:960-967 | expressions without shifts never misfold |
| SymbolicArrays.SymbolicArray.At | include/nse_sequential.h:914-958 | indexing in all its cases: growth, switch to stores, selection, and overflow, which gives a symbol made up for it and leaves the array as it was; whatever is made up is newer than all symbols so far |
| SymbolicArrays.SymbolicArray.Grow | include/nse_sequential.h:930-932 | new elements get symbols newer than all symbols so far, of this array or any other |
| SymbolicArrays.SymbolicArray.Switch | include/nse_sequential.h:940-950 | the vector is stored, element by element, into an array symbol newer than all symbols so far, so no other array has it |
| SymbolicArrays.SymbolicArray.Read | include/nse_sequential.h:817-849 | a completed read is logged and keeps the array consistent with all operations so far; all symbols it makes up are new |
| SymbolicArrays.SymbolicArray.Write | include/nse_sequential.h:851-898 | so does a completed write; all symbols it makes up are new |
| SymbolicArrays.ChainElements | include/nse_sequential.h:943-946 | the chain of stores holds the elements of the vector, and the fresh array elsewhere |
| SymbolicArrays.GrownConsistent | include/nse_sequential.h:930-932 | growth changes nothing observable |
| SymbolicArrays.SwitchedConsistent | include/nse_sequential.h:940-950 | nor does the switch |
| SymbolicArrays.WriteConsistent | include/nse_sequential.h:851-898 | a write in either representation is a write to an ordinary array |
| SymbolicArrays.ReadConsistent | include/nse_sequential.h:817-849 | a read in either representation is a read of an ordinary array |
| SymbolicArrays.ObservationsAreOfAnArray | include/nse_sequential.h:817-958 | main result: under every assignment all values read are those of an ordinary array with some initial contents |
| SymbolicArrays.EveryArrayIsRealized | include/nse_sequential.h:817-958 | main result: every initial contents is realized by an assignment that differs only in the symbols made up for this array |
| SymbolicArrays.StayApart | include/nse_sequential.h:914-958 | two arrays without a symbol in common stay so whatever operation one of them does |
| SymbolicArrays.TwoArraysAreRealized | include/nse_sequential.h:817-958 | main result: any two initial contents of two such arrays are realized by one assignment, so what is read of one array says nothing about the other |
| SymbolicArrays.RunAccesses | include/nse_sequential.h:817-958 | main result: after any sequence of reads and writes of two arrays over one counter, in any order and leaving out those that overflow, the logs are those of the accesses and any two initial contents are realized at once |

## Left out

- Solver back ends (`include/smt_z3.h` and the like), term classes, hash-consing and raw
  reference counts of `include/smt.h`: foreign calls and plumbing, replaced by oracles and
  plain term datatypes.
- `include/smt_deduce.h`: it treats an n-ary disjunction as if every disjunct had to hold,
  so there is no general statement that its "unsat" is right.
- Encoding.Encoder.Encode: the encoding of a trace without channels, messages and deadlock
  checks; these and the immediate dominator map (`include/crv.h:1610-1935`) are left out,
  because the map can send an event nested in an "else" branch to one of the sibling branch.
- Tracing: how programs become events, scopes and guards; the encoders start from a trace
  whose events are filed per address and per thread.
- Width of time: the default build has 16-bit times, the model has unbounded integers, so
  wrap-around of times and event identifiers is not captured.
- `force_branch`, timers and statistics other than call counts of the checkers.
- `ExplorationLoss.LosesExactly`: for explorations without checks and for those with one
  check after every path; a program that calls `check()` on some paths only, or several
  times, is covered by `SearchOutcome.SearchExact`, for any contents of the solver.
- `OneSchedule.EncodeTrace`: assumes of the tracer that every event has an identifier of
  its own, is filed once, and belongs to a thread.
- `include/bdd.h` is not part of this model: each handle is taken to add one reference.
  Node numbers are unbounded, and a node is the position of its entry, never reused.
- `Bdd.BDDManager.Apply`: the operators are total functions on two truth values; temporaries
  of one call are given up at its end rather than one by one.
- Counts of events per label and the unused `more_precise_shortcut`
  (`include/cka.h:726-742`): never called by a check.
- Sorting of partial strings under `_CKA_SORT_PARTIAL_STRINGS_`, printing, and overflow of
  lengths, event numbers and the loop counter of the least fixed point check.
- `TotalOrderModel` and the data race detector (`include/cka.h:1710-1890`): they reuse the
  filter, guards and axioms modelled here over a total order, with simpler proofs.
- `LazyPrograms.ProgramChecker.CheckLfp`: exactness assumes that the solver always answers;
  a positive answer is right in any case. A negative answer is promised to be right about the
  least fixed points only when the lengths pass the test, since otherwise it need not be.
- `StackExactness.StackEncodingExact`: for operations at different times;
  `StackTies.StackEncodingDecided` is the statement for all times.
- Casts between types of different width and promotion of small integers in
  `Internal<T>`, division and remainder (undefined for a zero divisor), and `External<T>`:
  the propagator is modelled for one width at a time, and Booleans. Words are unsigned, so
  comparisons and right shifts of signed types are not captured. Shift distances beyond
  the width, undefined in C++, give zero as in the theory of bit-vectors.
- `SymbolicArrays.SymbolicArray.Write`: writes after an overflow of the index are disallowed
  by the source as well; two live temporaries of one array, arrays from initializer lists,
  and pointers into arrays are not modelled.
