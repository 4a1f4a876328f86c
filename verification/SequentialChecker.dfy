/** Depth-first symbolic execution that prunes infeasible branches. */
module SequentialChecker {
  import opened Formulas
  import opened DecisionTrees

  /** The stack of decisions along the current path. */
  class Dfs {
    var flips: seq<Flip>
    var flipIndex: nat

    constructor ()
      ensures flips == [] && flipIndex == 0
    {
      flips, flipIndex := [], 0;
    }

    predicate HasNext()
      reads this
    {
      flipIndex < |flips|
    }

    method Next() returns (direction: bool)
      requires HasNext()
      modifies this`flipIndex
      ensures flipIndex == old(flipIndex) + 1
      ensures direction == flips[old(flipIndex)].direction
    {
      direction := flips[flipIndex].direction;
      flipIndex := flipIndex + 1;
    }

    method AppendFlip(direction: bool, frozen: bool)
      modifies this
      ensures flips == old(flips) + [Flip(direction, frozen)]
      ensures flipIndex == old(flipIndex) + 1
    {
      flips := flips + [Flip(direction, frozen)];
      flipIndex := flipIndex + 1;
    }

    method FindNextPath() returns (found: bool)
      modifies this
      ensures flips == NextFlips(old(flips)) && flipIndex == 0
      ensures found <==> flips != []
    {
      flipIndex := 0;
      while flips != [] && flips[|flips| - 1].frozen
        invariant NextFlips(flips) == NextFlips(old(flips)) && flipIndex == 0
        decreases |flips|
      {
        flips := flips[..|flips| - 1];
      }
      if flips == [] {
        return false;
      }
      var last := flips[|flips| - 1];
      flips := flips[..|flips| - 1] + [Flip(!last.direction, true)];
      return true;
    }
  }

  /** What a checker knows about the path it is on. */
  datatype Snapshot = Snapshot(flips: seq<Flip>, flipIndex: nat,
                               guards: seq<Formula>, errors: seq<Formula>, feasible: bool)

  /** The effect of one `branch(c, hint)` call that returns `d`.  Literals, and
      everything on a path already known to be infeasible, leave the state alone.
      A recorded flip is followed.  Otherwise the decision is recorded, frozen
      exactly if the hinted side was ruled out; when both sides were ruled out the
      path is infeasible. */
  ghost predicate Branched(asserted: seq<Formula>, c: Condition, hint: bool, s: Snapshot, d: bool, s': Snapshot)
  {
    if c.Literal? then d == c.value && s' == s
    else if !s.feasible then !d && s' == s
    else if s.flipIndex < |s.flips| then
      && d == s.flips[s.flipIndex].direction
      && s' == s.(flipIndex := s.flipIndex + 1, guards := s.guards + [Direct(c.formula, d)])
    else if s'.feasible then
      && s' == s.(flips := s.flips + [Flip(d, d != hint)], flipIndex := s.flipIndex + 1,
                  guards := s.guards + [Direct(c.formula, d)])
      && (d != hint ==>
            forall x: Input :: !(AllHold(asserted, x) && AllHold(s.guards, x) && Eval(Direct(c.formula, hint), x)))
    else
      && !d && s' == s.(feasible := false)
      && forall x: Input :: !(AllHold(asserted, x) && AllHold(s.guards, x))
  }

  ghost predicate Asserted(c: Condition, s: Snapshot, s': Snapshot)
  {
    && s' == s.(guards := s'.guards)
    && |s'.guards| == |s.guards| + 1 && s'.guards[..|s.guards|] == s.guards
    && forall x: Input :: Eval(s'.guards[|s.guards|], x) <==> Holds(c, x)
  }

  ghost predicate ErrorRecorded(c: Condition, s: Snapshot, s': Snapshot)
  {
    s' == if c.Term? then s.(errors := s.errors + [c.formula]) else s
  }

  /** Some input is consistent with the asserted terms, the guards and `f`. */
  ghost predicate Possible(asserted: seq<Formula>, guards: seq<Formula>, f: Formula)
  {
    exists x: Input :: AllHold(asserted, x) && AllHold(guards, x) && Eval(f, x)
  }

  /** A new decision of a conclusive solver: the hinted side if some input takes it, else the
      other side if some input takes that, else the path is given up. */
  ghost predicate Decided(asserted: seq<Formula>, f: Formula, hint: bool, s: Snapshot, d: bool, s': Snapshot)
  {
    if Possible(asserted, s.guards, Direct(f, hint)) then s'.feasible && d == hint
    else if Possible(asserted, s.guards, Direct(f, !hint)) then s'.feasible && d == !hint
    else !s'.feasible
  }

  class SequentialDfsChecker {
    const oracle: Oracle
    const dfs: Dfs
    var solver: seq<Formula>
    var guards: seq<Formula>
    var errors: seq<Formula>
    var feasible: bool
    var checks: nat

    constructor (oracle: Oracle)
      ensures this.oracle == oracle && fresh(dfs)
      ensures dfs.flips == [] && dfs.flipIndex == 0
      ensures solver == [] && guards == [] && errors == [] && feasible
    {
      this.oracle := oracle;
      dfs := new Dfs();
      solver, guards, errors, feasible, checks := [], [], [], true, 0;
    }

    /** Are the asserted terms, the guards and `condition` consistent?  The answer is the
        solver's; its own assertions are the same afterwards. */
    method CheckCondition(condition: Formula) returns (r: CheckResult)
      requires Reliable(oracle)
      modifies this`checks
      ensures r == oracle.check(old(checks), solver + guards + [condition]) && checks == old(checks) + 1
      ensures Conclusive(oracle) ==> (r.Unsat? <==> !Possible(solver, guards, condition))
      ensures r.Unsat? ==> forall x: Input :: !(AllHold(solver, x) && AllHold(guards, x) && Eval(condition, x))
    {
      var asserted := solver + guards + [condition];
      r := oracle.check(checks, asserted);
      checks := checks + 1;
      forall x: Input ensures AllHold(asserted, x) <==> AllHold(solver, x) && AllHold(guards, x) && Eval(condition, x) {
        AllHoldAppend(solver + guards, [condition], x);
        AllHoldAppend(solver, guards, x);
        assert AllHold([condition], x) <==> Eval([condition][0], x);
      }
      assert Satisfiable(asserted) <==> Possible(solver, guards, condition);
    }

    method AddGuard(g: Formula)
      modifies this`guards
      ensures guards == old(guards) + [g]
    {
      guards := guards + [g];
    }

    method AddAssertion(c: Condition)
      modifies this`guards
      ensures Asserted(c, old(State()), State())
    {
      match c
      case Literal(b) => AddGuard(Atom(x => b));
      case Term(f) => AddGuard(f);
    }

    /** Records an error condition; `abort` when a literal error is found on a path
        not known to be infeasible, which ends the run on the spot. */
    method AddError(c: Condition) returns (abort: bool)
      modifies this`errors
      ensures abort <==> c == Literal(true) && feasible
      ensures ErrorRecorded(c, old(State()), State())
    {
      match c
      case Literal(b) => abort := feasible && b;
      case Term(f) => errors := errors + [f]; abort := false;
    }

    ghost function State(): Snapshot
      reads this, dfs
    {
      Snapshot(dfs.flips, dfs.flipIndex, guards, errors, feasible)
    }

    /** Follow a control flow direction, pruning those found infeasible; the hint
        says which direction to try first. */
    method BranchTerm(f: Formula, hint: bool) returns (d: bool)
      requires Reliable(oracle) && feasible && dfs.flipIndex <= |dfs.flips|
      modifies this`guards, this`feasible, this`checks, dfs
      ensures Branched(solver, Term(f), hint, old(State()), d, State())
      ensures Conclusive(oracle) && !old(dfs.HasNext()) ==> Decided(solver, f, hint, old(State()), d, State())
    {
      if dfs.HasNext() {
        d := dfs.Next();
        AddGuard(Direct(f, d));
        return;
      }
      d := hint;
      var r := CheckCondition(Direct(f, d));
      if r.Unsat? {
        d := !hint;
        r := CheckCondition(Direct(f, d));
        if r.Unsat? {
          feasible := false;
          d := false;
          forall x: Input ensures !(AllHold(solver, x) && AllHold(guards, x)) {
            assert Eval(Direct(f, true), x) || Eval(Direct(f, false), x);
          }
          return;
        }
      }
      AddGuard(Direct(f, d));
      dfs.AppendFlip(d, d != hint);
    }

    /** The public entry: literals decide themselves, and once the path is known to
        be infeasible every symbolic branch goes to the "else" side. */
    method Branch(c: Condition, hint: bool) returns (d: bool)
      requires Reliable(oracle) && dfs.flipIndex <= |dfs.flips|
      modifies this`guards, this`feasible, this`checks, dfs
      ensures Branched(solver, c, hint, old(State()), d, State())
      ensures Conclusive(oracle) && c.Term? && old(feasible) && !old(dfs.HasNext()) ==>
        Decided(solver, c.formula, hint, old(State()), d, State())
    {
      match c
      case Literal(b) => d := b;
      case Term(f) =>
        if !feasible {
          d := false;
        } else {
          d := BranchTerm(f, hint);
        }
    }

    method FindNextPath() returns (found: bool)
      modifies this, dfs
      ensures dfs.flips == NextFlips(old(dfs.flips)) && dfs.flipIndex == 0
      ensures found <==> dfs.flips != []
      ensures feasible && checks == old(checks)
      ensures found ==> solver == [] && guards == [] && errors == []
    {
      feasible := true;
      found := dfs.FindNextPath();
      if found {
        solver, guards, errors := [], [], [];
      }
    }

    /** Is some error on this path possible?  The solver is asked about the guards and the
        errors, which stay in it, unless there are no errors. */
    method Check() returns (r: CheckResult)
      requires Reliable(oracle)
      modifies this`solver, this`checks
      ensures errors == [] ==> r.Unsat? && solver == old(solver) && checks == old(checks)
      ensures errors != [] ==>
        && solver == old(solver) + guards + [Disjunction(errors)]
        && r == oracle.check(old(checks), solver) && checks == old(checks) + 1
      ensures Conclusive(oracle) ==>
        (r.Unsat? <==> !exists x: Input :: AllHold(old(solver), x) && AllHold(guards, x) && AnyHolds(errors, x))
      ensures r.Unsat? ==> forall x: Input :: !(AllHold(old(solver), x) && AllHold(guards, x) && AnyHolds(errors, x))
    {
      if errors == [] {
        return Unsat;
      }
      ghost var before := solver;
      solver := solver + guards + [Disjunction(errors)];
      r := oracle.check(checks, solver);
      checks := checks + 1;
      forall x: Input ensures AllHold(solver, x) <==> AllHold(before, x) && AllHold(guards, x) && AnyHolds(errors, x) {
        AllHoldAppend(before + guards, [Disjunction(errors)], x);
        AllHoldAppend(before, guards, x);
        assert AllHold([Disjunction(errors)], x) <==> Eval([Disjunction(errors)][0], x);
      }
    }
  }
}
