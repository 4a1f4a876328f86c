/** Two programs of which the backtracking checker loses a feasible leaf, under a solver that
    decides everything and blames a guard only when it must. */
module LossyPrograms {
  import opened Formulas
  import opened DecisionTrees
  import opened PathConditions
  import opened BacktrackChecker
  import opened SearchOutcome
  import opened ExplorationLog
  import opened ExplorationLoss
  import opened DecidingSolver

  /** The last guard of the shortest refuted prefix. */
  ghost function LeastCore(asserted: seq<Formula>, gs: seq<Formula>): (c: nat)
    requires Consistent(asserted, []) && !Consistent(asserted, gs)
    ensures c < |gs| && !Consistent(asserted, gs[..c + 1])
    ensures forall k :: 0 <= k <= c ==> Consistent(asserted, gs[..k])
  {
    var front := gs[..|gs| - 1];
    if Consistent(asserted, front) then
      assert gs[..|gs|] == gs;
      PrefixesConsistent(asserted, gs);
      |gs| - 1
    else
      var c := LeastCore(asserted, front);
      assert forall k :: 0 <= k <= c + 1 ==> front[..k] == gs[..k];
      c
  }

  lemma PrefixesConsistent(asserted: seq<Formula>, gs: seq<Formula>)
    requires gs != [] && Consistent(asserted, gs[..|gs| - 1])
    ensures forall k :: 0 <= k < |gs| ==> Consistent(asserted, gs[..k])
  {
    var front := gs[..|gs| - 1];
    var x: Input :| AllHold(asserted, x) && AllHold(front, x);
    forall k | 0 <= k < |gs| ensures Consistent(asserted, gs[..k]) {
      assert gs[..k] == front[..k];
      assert AllHold(gs[..k], x);
    }
  }

  /** A solver that decides everything; a core exists only when the guards are needed for the
      conflict, and then it is the shortest. */
  ghost function Exact(): (o: Oracle)
    ensures Reliable(o)
  {
    Oracle((n, fs) => if Consistent(fs, []) then Sat else Unsat,
           (n, asserted, gs) =>
             if Consistent(asserted, []) && !Consistent(asserted, gs) then Core(LeastCore(asserted, gs)) else NoCore)
  }

  lemma ExactDecides()
    ensures Deciding(Exact())
  {
    forall n, asserted, gs ensures Decides(Exact(), n, asserted, gs) {}
  }

  const BOTH_ELSE: Path := [false, false]
  const ELSE_THEN: Path := [false, true]
  const ONLY_THEN: Path := [true]

  /** The exploration passes the first path and drops the leaf behind the second. */
  lemma LostOnSecondPath(p: Program, address: nat -> nat, checked: bool)
    requires Reachable(p, []) && Reachable(p, ELSE_THEN)
    requires Follow(p, []) == BOTH_ELSE && Follow(p, ELSE_THEN) == ELSE_THEN
    requires Complete(p, BOTH_ELSE) && Complete(p, ELSE_THEN)
    requires Consistent(SeenAt(p, BOTH_ELSE, checked), Guards(p, BOTH_ELSE))
    requires checked ==> Consistent(Assertions(p, BOTH_ELSE), Guards(p, BOTH_ELSE))
    requires checked ==> Consistent(Assertions(p, ELSE_THEN), Guards(p, ELSE_THEN))
    requires Consistent(SeenAt(p, ELSE_THEN, checked), [])
    requires !SurvivesOn(p, ELSE_THEN, 0, SeenAt(p, ELSE_THEN, checked))
    ensures Reachable(p, Dirs(START.flips))
    ensures ONLY_THEN !in Visits(p, Exact(), address, checked, START)
  {
    StartReachable(p);
    FirstPasses(p, address, checked);
    VisitsUnfold(p, Exact(), address, checked, START);
    LostFromSecond(p, address, checked, Move(Exact(), address, RunFrom(p, address, START), checked));
  }

  lemma LostFromSecond(p: Program, address: nat -> nat, checked: bool, s: SearchResult)
    requires s.flips == [Flip(false, false), Flip(true, true)] && Reachable(p, Dirs(s.flips))
    requires Follow(p, ELSE_THEN) == ELSE_THEN && Complete(p, ELSE_THEN)
    requires checked ==> Consistent(Assertions(p, ELSE_THEN), Guards(p, ELSE_THEN))
    requires Consistent(SeenAt(p, ELSE_THEN, checked), [])
    requires !SurvivesOn(p, ELSE_THEN, 0, SeenAt(p, ELSE_THEN, checked))
    ensures ONLY_THEN !in Visits(p, Exact(), address, checked, s)
  {
    assert Dirs(s.flips) == ELSE_THEN;
    SecondDrops(p, address, checked, s);
    VisitsUnfold(p, Exact(), address, checked, s);
    NotVisited(p, Exact(), address, checked, Move(Exact(), address, RunFrom(p, address, s), checked), ONLY_THEN);
  }

  lemma FirstPasses(p: Program, address: nat -> nat, checked: bool)
    requires Reachable(p, []) && Dirs(START.flips) == [] && Follow(p, []) == BOTH_ELSE
    requires Consistent(SeenAt(p, BOTH_ELSE, checked), Guards(p, BOTH_ELSE))
    requires checked ==> Consistent(Assertions(p, BOTH_ELSE), Guards(p, BOTH_ELSE))
    ensures Move(Exact(), address, RunFrom(p, address, START), checked).flips == [Flip(false, false), Flip(true, true)]
  {
    var r := RunFrom(p, address, START);
    assert r.flips == [Flip(false, false), Flip(false, false)];
    assert r.flips[..1] == [Flip(false, false)];
    assert SolverContents(r, checked) == SeenAt(p, BOTH_ELSE, checked);
  }

  lemma SecondDrops(p: Program, address: nat -> nat, checked: bool, s: SearchResult)
    requires s.flips == [Flip(false, false), Flip(true, true)] && Reachable(p, Dirs(s.flips))
    requires Follow(p, Dirs(s.flips)) == ELSE_THEN && Complete(p, ELSE_THEN)
    requires checked ==> Consistent(Assertions(p, ELSE_THEN), Guards(p, ELSE_THEN))
    requires Consistent(SeenAt(p, ELSE_THEN, checked), [])
    requires !SurvivesOn(p, ELSE_THEN, 0, SeenAt(p, ELSE_THEN, checked))
    ensures !Keeps(Move(Exact(), address, RunFrom(p, address, s), checked).flips, ONLY_THEN)
  {
    var r := RunFrom(p, address, s);
    var asserted := SeenAt(p, ELSE_THEN, checked);
    EndDirs(p, s.flips);
    assert r.flips == s.flips;
    assert SolverContents(r, checked) == asserted;
    OneGuardPerDirection(p, ELSE_THEN);
    assert DivergesAt(r.flips, ONLY_THEN, 0);
    SearchDrops(p, Exact(), address, r, asserted, ChecksBefore(r, checked), ONLY_THEN, 0);
  }

  // ---- An assertion stays in the solver -------------------------------------------------------

  function Less(n: int): Formula { Atom((x: Input) => x(0) < n) }
  function Greater(n: int): Formula { Atom((x: Input) => x(0) > n) }
  function Equals(n: int): Formula { Atom((x: Input) => x(0) == n) }
  function Giving(n: int): Input { (k: nat) => n }

  /** `if (x > 0) {} else { assume(x < 0); if (x == 0) {} }` */
  function Asserting(): Program
  {
    Branch(Term(Greater(0)), false, Leaf, Assertion(Term(Less(0)), Branch(Term(Equals(0)), false, Leaf, Leaf)))
  }

  lemma AssertingPaths()
    ensures var p := Asserting();
      && Follow(p, []) == BOTH_ELSE && Follow(p, ELSE_THEN) == ELSE_THEN
      && Complete(p, BOTH_ELSE) && Complete(p, ELSE_THEN) && Complete(p, ONLY_THEN)
      && Reachable(p, []) && Reachable(p, ELSE_THEN)
      && Assertions(p, BOTH_ELSE) == Assertions(p, ELSE_THEN) == [Less(0)]
      && Guards(p, BOTH_ELSE) == [Not(Greater(0)), Not(Equals(0))]
      && Guards(p, ELSE_THEN) == [Not(Greater(0)), Equals(0)]
  {
    assert ELSE_THEN[1..] == [true] && BOTH_ELSE[1..] == [false] && [true][1..] == [] && [false][1..] == [];
  }

  /** The assertion of the "else" side refutes `x == 0`, and is still in the solver when the
      flipped prefix `x > 0` is checked: the leaf for positive `x` is never visited. */
  lemma AssertionLosesLeaf(address: nat -> nat)
    ensures Feasible(Asserting(), ONLY_THEN) && Reachable(Asserting(), Dirs(START.flips))
    ensures ONLY_THEN !in Visits(Asserting(), Exact(), address, false, START)
  {
    var p := Asserting();
    AssertingPaths();
    AssertingFeasible();
    assert AllHold([Less(0)], Giving(-1)) && AllHold(Guards(p, BOTH_ELSE), Giving(-1));
    AssertionRefutes();
    LostOnSecondPath(p, address, false);
  }

  lemma AssertingFeasible()
    ensures Feasible(Asserting(), ONLY_THEN)
  {
    AssertingPaths();
    assert PathHolds(Asserting(), ONLY_THEN, Giving(1));
  }

  lemma AssertionRefutes()
    ensures Consistent([Less(0)], [])
    ensures !SurvivesOn(Asserting(), ELSE_THEN, 0, [Less(0)])
  {
    AssertingPaths();
    assert AllHold([Less(0)], Giving(-1)) && AllHold([], Giving(-1));
    Refutes([Less(0)], [Not(Greater(0)), Equals(0)], 0, 1);
    Refutes([Less(0)], [Not(Not(Greater(0)))], 0, 0);
    assert FlippedAt([Not(Greater(0)), Equals(0)], 0) == [Not(Not(Greater(0)))];
  }

  /** Two terms that exclude each other. */
  lemma Refutes(asserted: seq<Formula>, gs: seq<Formula>, i: nat, j: nat)
    requires i < |asserted| && j < |gs| && forall x: Input :: !(Eval(asserted[i], x) && Eval(gs[j], x))
    ensures !Consistent(asserted, gs)
  {
    forall x: Input | AllHold(gs, x) ensures !AllHold(asserted, x) {
      assert Eval(gs[j], x);
      assert !Eval(asserted[i], x);
    }
  }

  // ---- An error stays in the solver ------------------------------------------------------------

  /** `error(x == 3); if (x > 5) {} else if (x < 0) {}` */
  function Failing(): Program
  {
    Error(Term(Equals(3)), Branch(Term(Greater(5)), false, Leaf, Branch(Term(Less(0)), false, Leaf, Leaf)))
  }

  function TheError(): Formula { And(Constant(true), Equals(3)) }

  lemma FailingPaths()
    ensures var p := Failing();
      && Follow(p, []) == BOTH_ELSE && Follow(p, ELSE_THEN) == ELSE_THEN
      && Complete(p, BOTH_ELSE) && Complete(p, ELSE_THEN) && Complete(p, ONLY_THEN)
      && Reachable(p, []) && Reachable(p, ELSE_THEN)
      && Assertions(p, BOTH_ELSE) == Assertions(p, ELSE_THEN) == []
      && Guards(p, BOTH_ELSE) == [Not(Greater(5)), Not(Less(0))]
      && Guards(p, ELSE_THEN) == [Not(Greater(5)), Less(0)]
      && Errors(p, BOTH_ELSE, []) == Errors(p, ELSE_THEN, []) == [TheError()]
  {
    assert ELSE_THEN[1..] == [true] && BOTH_ELSE[1..] == [false] && [true][1..] == [] && [false][1..] == [];
  }

  lemma ErrorSeen()
    ensures SeenAt(Failing(), BOTH_ELSE, true) == SeenAt(Failing(), ELSE_THEN, true) == [TheError()]
  {
    FailingPaths();
    assert Disjunction([TheError()]) == TheError();
    assert [] + [TheError()] + [] == [TheError()];
  }

  lemma ErrorRefutes()
    ensures Consistent([TheError()], [])
    ensures !SurvivesOn(Failing(), ELSE_THEN, 0, [TheError()])
  {
    FailingPaths();
    assert AllHold([TheError()], Giving(3)) && AllHold([], Giving(3));
    Refutes([TheError()], [Not(Greater(5)), Less(0)], 0, 1);
    Refutes([TheError()], [Not(Not(Greater(5)))], 0, 0);
    assert FlippedAt([Not(Greater(5)), Less(0)], 0) == [Not(Not(Greater(5)))];
  }

  /** Without any assertion: the error `x == 3` is possible, stays in the solver after the
      check, and refutes first `x < 0` and then `x > 5`. */
  lemma CheckLosesLeaf(address: nat -> nat)
    ensures Feasible(Failing(), ONLY_THEN) && Reachable(Failing(), Dirs(START.flips))
    ensures ONLY_THEN !in Visits(Failing(), Exact(), address, true, START)
  {
    var p := Failing();
    FailingPaths();
    ErrorSeen();
    ErrorRefutes();
    FailingFeasible();
    FailingGuards();
    LostOnSecondPath(p, address, true);
  }

  lemma FailingFeasible()
    ensures Feasible(Failing(), ONLY_THEN)
  {
    FailingPaths();
    assert PathHolds(Failing(), ONLY_THEN, Giving(6));
  }

  lemma FailingGuards()
    ensures Consistent([TheError()], [Not(Greater(5)), Not(Less(0))])
    ensures Consistent([], [Not(Greater(5)), Not(Less(0))]) && Consistent([], [Not(Greater(5)), Less(0)])
  {
    assert AllHold([Not(Greater(5)), Not(Less(0))], Giving(3));
    assert AllHold([TheError()], Giving(3)) && AllHold([], Giving(3));
    assert AllHold([Not(Greater(5)), Less(0)], Giving(-1)) && AllHold([], Giving(-1));
  }

  // ---- Every solver that decides loses them ------------------------------------------------------

  /** It is not a matter of the cores: both programs lose a feasible leaf under every solver that
      reports a core exactly when guards are needed for a conflict. */
  lemma LostByAll(o: Oracle, address: nat -> nat)
    requires Deciding(o)
    ensures !LosesNothing(Asserting(), o, address, false) && !LosesNothing(Failing(), o, address, true)
  {
    ExactDecides();
    AssertionLosesLeaf(address);
    DecidingLosesExactly(Asserting(), Exact(), address, false);
    DecidingLosesExactly(Asserting(), o, address, false);
    CheckLosesLeaf(address);
    DecidingLosesExactly(Failing(), Exact(), address, true);
    DecidingLosesExactly(Failing(), o, address, true);
  }
}
