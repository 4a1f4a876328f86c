/** Non-chronological symbolic execution: paths are followed without any solver call,
    and unsat cores found at the end of a path skip whole subtrees. */
module BacktrackChecker {
  import opened Formulas
  import opened DecisionTrees
  import opened PathConditions
  import opened SequentialChecker

  /** A guard and the address of its term; terms may be shared between guards. */
  datatype Guard = Guard(addr: nat, term: Formula)

  function Terms(gs: seq<Guard>): (r: seq<Formula>)
    ensures |r| == |gs| && forall i :: 0 <= i < |gs| ==> r[i] == gs[i].term
  {
    seq(|gs|, i requires 0 <= i < |gs| => gs[i].term)
  }

  /** The last guard whose term sits at address `a`. */
  function LastAt(gs: seq<Guard>, a: nat): (k: nat)
    requires exists i :: 0 <= i < |gs| && gs[i].addr == a
    ensures k < |gs| && gs[k].addr == a
    ensures forall i :: k < i < |gs| ==> gs[i].addr != a
  {
    if gs[|gs| - 1].addr == a then |gs| - 1
    else
      var i :| 0 <= i < |gs| && gs[i].addr == a;
      assert gs[..|gs| - 1][i].addr == a;
      LastAt(gs[..|gs| - 1], a)
  }

  function Unfrozen(flips: seq<Flip>): nat
  {
    if flips == [] then 0
    else (if flips[|flips| - 1].frozen then 0 else 1) + Unfrozen(flips[..|flips| - 1])
  }

  lemma {:induction false} UnfrozenPrefix(flips: seq<Flip>, k: nat)
    requires k <= |flips|
    ensures Unfrozen(flips[..k]) <= Unfrozen(flips)
  {
    if k == |flips| {
      assert flips[..k] == flips;
    } else {
      assert flips[..|flips| - 1][..k] == flips[..k];
      UnfrozenPrefix(flips[..|flips| - 1], k);
    }
  }

  /** Each depth-first step freezes one more flip for good. */
  lemma {:induction false} NextFlipsFreezes(flips: seq<Flip>)
    ensures |NextFlips(flips)| <= |flips|
    ensures NextFlips(flips) != [] ==> Unfrozen(NextFlips(flips)) < Unfrozen(flips)
  {
    if flips != [] {
      if flips[|flips| - 1].frozen {
        NextFlipsFreezes(flips[..|flips| - 1]);
      } else {
        assert NextFlips(flips)[..|flips| - 1] == flips[..|flips| - 1];
      }
    }
  }

  /** The decisions after a core that ends at guard `c`: cut back to the last guard
      at that address, then step depth-first. */
  function CutFlips(guards: seq<Guard>, flips: seq<Flip>, c: nat): (r: seq<Flip>)
    requires |guards| == |flips| && c < |guards|
    ensures |r| <= |flips| && (r != [] ==> Unfrozen(r) < Unfrozen(flips))
  {
    var k := LastAt(guards, guards[c].addr);
    NextFlipsFreezes(flips[..k + 1]);
    UnfrozenPrefix(flips, k + 1);
    NextFlips(flips[..k + 1])
  }

  /** Keep the first `n` guards, negating the last of them. */
  function FlipLast(guards: seq<Guard>, n: nat, a: nat): (r: seq<Guard>)
    requires 0 < n <= |guards|
    ensures |r| == n
  {
    guards[..n - 1] + [Guard(a, Not(guards[n - 1].term))]
  }

  datatype SearchResult = SearchResult(flips: seq<Flip>, checks: nat, terms: nat)

  /** Cut the decisions back to the reported core, flip, and check the flipped
      prefix again, until a prefix is not refuted or nothing is left. */
  ghost function Search(o: Oracle, address: nat -> nat, asserted: seq<Formula>,
                        guards: seq<Guard>, flips: seq<Flip>, checks: nat, terms: nat): SearchResult
    requires Reliable(o) && |guards| == |flips|
    decreases Unfrozen(flips)
  {
    match o.assume_(checks, asserted, Terms(guards))
    case NoCore => SearchResult(flips, checks + 1, terms)
    case Core(c) =>
      var flips' := CutFlips(guards, flips, c);
      if flips' == [] then SearchResult([], checks + 1, terms)
      else Search(o, address, asserted, FlipLast(guards, |flips'|, address(terms)), flips', checks + 1, terms + 1)
  }

  ghost predicate SearchesTo(o: Oracle, address: nat -> nat, asserted: seq<Formula>, guards: seq<Guard>,
                             flips: seq<Flip>, checks: nat, terms: nat, target: SearchResult)
    requires Reliable(o) && |guards| == |flips|
  {
    Search(o, address, asserted, guards, flips, checks, terms) == target
  }

  /** One round of the search. */
  lemma SearchUnfolds(o: Oracle, address: nat -> nat, asserted: seq<Formula>, guards: seq<Guard>, flips: seq<Flip>,
                      checks: nat, terms: nat)
    requires Reliable(o) && |guards| == |flips| && o.assume_(checks, asserted, Terms(guards)).Core?
    ensures var flips' := CutFlips(guards, flips, o.assume_(checks, asserted, Terms(guards)).last);
      Search(o, address, asserted, guards, flips, checks, terms) ==
        if flips' == [] then SearchResult([], checks + 1, terms)
        else Search(o, address, asserted, FlipLast(guards, |flips'|, address(terms)), flips', checks + 1, terms + 1)
  {
  }

  lemma SearchStops(o: Oracle, address: nat -> nat, asserted: seq<Formula>, guards: seq<Guard>, flips: seq<Flip>,
                    checks: nat, terms: nat, target: SearchResult)
    requires Reliable(o) && |guards| == |flips|
    requires SearchesTo(o, address, asserted, guards, flips, checks, terms, target)
    requires o.assume_(checks, asserted, Terms(guards)).NoCore?
    ensures target == SearchResult(flips, checks + 1, terms)
  {
  }

  /** A search goes on from the state after the cut, or ends with it. */
  lemma SearchGoesOn(o: Oracle, address: nat -> nat, asserted: seq<Formula>, guards: seq<Guard>, flips: seq<Flip>,
                     checks: nat, terms: nat, target: SearchResult, c: nat, found: bool, guards': seq<Guard>,
                     flips': seq<Flip>, terms': nat)
    requires Reliable(o) && |guards| == |flips|
    requires SearchesTo(o, address, asserted, guards, flips, checks, terms, target)
    requires o.assume_(checks, asserted, Terms(guards)) == Core(c) && c < |guards|
    requires flips' == CutFlips(guards, flips, c) && (found <==> flips' != [])
    requires found ==> terms' == terms + 1 && guards' == FlipLast(guards, |flips'|, address(terms))
    requires !found ==> terms' == terms
    ensures Resumes(o, address, asserted, flips, found, guards', flips', checks + 1, terms', target)
  {
  }

  /** After a cut the search is over, or goes on with fewer unfrozen flips. */
  ghost predicate Resumes(o: Oracle, address: nat -> nat, asserted: seq<Formula>, was: seq<Flip>, found: bool,
                          guards: seq<Guard>, flips: seq<Flip>, checks: nat, terms: nat, target: SearchResult)
    requires Reliable(o)
  {
    if found then
      && |guards| == |flips| && Unfrozen(flips) < Unfrozen(was)
      && SearchesTo(o, address, asserted, guards, flips, checks, terms, target)
    else target == SearchResult(flips, checks, terms)
  }

  /** The solver refutes the guards. */
  ghost predicate Conflict(o: Oracle, checks: nat, asserted: seq<Formula>, guards: seq<Guard>)
  {
    guards != [] && o.assume_(checks, asserted, Terms(guards)).Core?
  }

  /** The number of checks after the guards have been checked once. */
  function AfterGuards(guards: seq<Guard>, checks: nat): nat
  {
    if guards == [] then checks else checks + 1
  }

  /** Where the exploration goes on from a finished path. */
  ghost function MoveOn(o: Oracle, address: nat -> nat, asserted: seq<Formula>, guards: seq<Guard>, flips: seq<Flip>,
                        checks: nat, terms: nat): SearchResult
    requires Reliable(o) && |guards| == |flips|
  {
    if Conflict(o, checks, asserted, guards) then Search(o, address, asserted, guards, flips, checks, terms)
    else SearchResult(NextFlips(flips), AfterGuards(guards, checks), terms)
  }

  /** What a checker has collected on the current path. */
  datatype Progress = Progress(flips: seq<Flip>, guards: seq<Guard>, assertions: seq<Formula>, errors: seq<Formula>)

  ghost predicate BranchRecorded(s: Progress, c: Condition, d: bool, a: nat, s': Progress)
  {
    var n := |s.guards|;
    if c.Literal? then d == c.value && s' == s
    else
      && d == (n < |s.flips| && s.flips[n].direction)
      && s' == s.(flips := if n < |s.flips| then s.flips else s.flips + [Flip(false, false)],
                  guards := s.guards + [Guard(a, Direct(c.formula, d))])
  }

  class BacktrackDfsChecker {
    const oracle: Oracle
    const address: nat -> nat
    const dfs: Dfs
    var solver: seq<Formula>
    var assertions: seq<Formula>
    var errors: seq<Formula>
    var guards: seq<Guard>
    var allow: bool
    var foundPath: bool
    var checks: nat
    var terms: nat

    constructor (oracle: Oracle, address: nat -> nat)
      ensures this.oracle == oracle && this.address == address && fresh(dfs)
      ensures dfs.flips == [] && dfs.flipIndex == 0
      ensures solver == [] && assertions == [] && errors == [] && guards == [] && allow
      ensures checks == terms == 0
    {
      this.oracle, this.address := oracle, address;
      dfs := new Dfs();
      solver, assertions, errors, guards := [], [], [], [];
      allow, foundPath, checks, terms := true, true, 0, 0;
    }

    ghost function State(): Progress
      reads this, dfs
    {
      Progress(dfs.flips, guards, assertions, errors)
    }

    method AddAssertion(c: Condition)
      modifies this`assertions
      ensures assertions == old(assertions) + [TermOf(c)]
    {
      assertions := assertions + [TermOf(c)];
    }

    /** An error counts only under the guards in force when it is recorded. */
    method AddError(c: Condition)
      modifies this`errors
      ensures errors == old(errors) + [ErrorTerm(Terms(guards), c)]
    {
      var guard := if guards == [] then Constant(true) else Conjunction(Terms(guards));
      match c
      case Literal(b) => errors := errors + [if b then guard else Constant(false)];
      case Term(f) => errors := errors + [And(guard, f)];
    }

    /** Follow the recorded flip, or record "else" without looking at feasibility.  Once
        the path is known to be infeasible nothing more is recorded. */
    method Branch(c: Condition) returns (d: bool)
      requires if allow then dfs.flipIndex == |guards| <= |dfs.flips| else !dfs.HasNext()
      modifies this`guards, this`terms, dfs
      ensures allow ==>
        && BranchRecorded(old(State()), c, d, address(old(terms)), State()) && dfs.flipIndex == |guards|
        && terms == old(terms) + if c.Term? then 1 else 0
      ensures !allow ==> State() == old(State()) && d == (c == Literal(true))
    {
      match c
      case Literal(b) => d := b;
      case Term(f) =>
        d := false;
        if dfs.HasNext() {
          d := dfs.Next();
        } else {
          if !allow {
            return;
          }
          dfs.AppendFlip(d, false);
        }
        guards, terms := guards + [Guard(address(terms), Direct(f, d))], terms + 1;
    }

    /** Give up the subtree refuted by a core that ends at guard `c`, and flip. */
    method CutBack(c: nat)
      requires |guards| == |dfs.flips| && c < |guards|
      modifies this`guards, this`foundPath, this`terms, dfs
      ensures dfs.flips == CutFlips(old(guards), old(dfs.flips), c) && dfs.flipIndex == 0
      ensures foundPath <==> dfs.flips != []
      ensures foundPath ==>
        && terms == old(terms) + 1
        && guards == FlipLast(old(guards), |dfs.flips|, address(old(terms)))
      ensures !foundPath ==> terms == old(terms)
    {
      ghost var gs, flips, k := guards, dfs.flips, LastAt(guards, guards[c].addr);
      var a := guards[c].addr;
      while a != guards[|guards| - 1].addr
        invariant terms == old(terms)
        invariant k < |guards| <= |gs| && |guards| == |dfs.flips| && |gs| == |flips|
        invariant guards == gs[..|guards|] && dfs.flips == flips[..|guards|]
        invariant forall i :: |guards| <= i < |gs| ==> gs[i].addr != a
        decreases |guards|
      {
        guards := guards[..|guards| - 1];
        dfs.flips := dfs.flips[..|dfs.flips| - 1];
      }
      NextFlipsFreezes(flips[..k + 1]);
      foundPath := dfs.FindNextPath();
      if foundPath {
        var m := |dfs.flips| - 1;
        guards := guards[..m] + [Guard(address(terms), Not(guards[m].term))];
        terms := terms + 1;
      }
    }

    /** Check the prefixes reached by cutting back, from the one just flipped on. */
    method RepeatCheck(ghost target: SearchResult)
      requires Reliable(oracle) && |guards| == |dfs.flips| && dfs.flips != [] && dfs.flipIndex == 0 && foundPath
      requires SearchesTo(oracle, address, solver, guards, dfs.flips, checks, terms, target)
      modifies this`guards, this`foundPath, this`checks, this`terms, dfs
      ensures target == SearchResult(dfs.flips, checks, terms)
      ensures dfs.flipIndex == 0 && (foundPath <==> dfs.flips != [])
    {
      var done := false;
      while !done
        invariant !done ==>
          && |guards| == |dfs.flips| && dfs.flips != [] && foundPath
          && SearchesTo(oracle, address, solver, guards, dfs.flips, checks, terms, target)
        invariant done ==> target == SearchResult(dfs.flips, checks, terms)
        invariant dfs.flipIndex == 0 && (foundPath <==> dfs.flips != [])
        decreases !done, Unfrozen(dfs.flips)
      {
        done := CheckPrefix(target);
      }
    }

    /** One check; `done` when the prefix is not refuted or nothing is left. */
    method CheckPrefix(ghost target: SearchResult) returns (done: bool)
      requires Reliable(oracle) && |guards| == |dfs.flips| && dfs.flips != [] && dfs.flipIndex == 0 && foundPath
      requires SearchesTo(oracle, address, solver, guards, dfs.flips, checks, terms, target)
      modifies this`guards, this`foundPath, this`checks, this`terms, dfs
      ensures dfs.flipIndex == 0 && (foundPath <==> dfs.flips != [])
      ensures done ==> target == SearchResult(dfs.flips, checks, terms)
      ensures !done ==>
        && |guards| == |dfs.flips| && dfs.flips != [] && Unfrozen(dfs.flips) < Unfrozen(old(dfs.flips))
        && SearchesTo(oracle, address, solver, guards, dfs.flips, checks, terms, target)
    {
      var r := oracle.assume_(checks, solver, Terms(guards));
      if r.NoCore? {
        SearchStops(oracle, address, solver, guards, dfs.flips, checks, terms, target);
        checks := checks + 1;
        return true;
      }
      CutAfterCheck(r.last, target);
      return !foundPath;
    }

    /** What a refuted check leads to. */
    method CutAfterCheck(c: nat, ghost target: SearchResult)
      requires Reliable(oracle) && |guards| == |dfs.flips| && c < |guards|
      requires oracle.assume_(checks, solver, Terms(guards)) == Core(c)
      requires SearchesTo(oracle, address, solver, guards, dfs.flips, checks, terms, target)
      modifies this`guards, this`foundPath, this`checks, this`terms, dfs
      ensures dfs.flipIndex == 0 && (foundPath <==> dfs.flips != [])
      ensures Resumes(oracle, address, solver, old(dfs.flips), foundPath, guards, dfs.flips, checks, terms, target)
    {
      ghost var gs, flips, n, t := guards, dfs.flips, checks, terms;
      checks := checks + 1;
      CutBack(c);
      SearchGoesOn(oracle, address, solver, gs, flips, n, t, target, c, foundPath, guards, dfs.flips, terms);
    }

    /** Checks the path condition and, while cores are reported, moves the recorded
        decisions on to the next prefix that is not refuted. */
    method BacktrackCheck()
      requires Reliable(oracle) && allow && |guards| == |dfs.flips|
      modifies this`solver, this`guards, this`allow, this`foundPath, this`checks, this`terms, dfs
      ensures solver == old(solver) + assertions
      ensures allow <==> !Conflict(oracle, old(checks), solver, old(guards))
      ensures !allow ==>
        && dfs.flipIndex == 0 && (foundPath <==> dfs.flips != [])
        && SearchesTo(oracle, address, solver, old(guards), old(dfs.flips), old(checks), old(terms),
                      SearchResult(dfs.flips, checks, terms))
      ensures allow ==>
        && guards == old(guards) && dfs.flips == old(dfs.flips) && terms == old(terms)
        && checks == AfterGuards(guards, old(checks))
    {
      solver := solver + assertions;
      if guards == [] {
        return;
      }
      CheckGuards(Search(oracle, address, solver, guards, dfs.flips, checks, terms));
    }

    /** The search whose outcome is `target`. */
    method CheckGuards(ghost target: SearchResult)
      requires Reliable(oracle) && allow && |guards| == |dfs.flips| && guards != []
      requires SearchesTo(oracle, address, solver, guards, dfs.flips, checks, terms, target)
      modifies this`guards, this`allow, this`foundPath, this`checks, this`terms, dfs
      ensures allow <==> oracle.assume_(old(checks), solver, Terms(old(guards))).NoCore?
      ensures allow ==>
        && guards == old(guards) && dfs.flips == old(dfs.flips) && terms == old(terms)
        && checks == old(checks) + 1
      ensures !allow ==>
        && dfs.flipIndex == 0 && (foundPath <==> dfs.flips != []) && target == SearchResult(dfs.flips, checks, terms)
    {
      var r := oracle.assume_(checks, solver, Terms(guards));
      if r.NoCore? {
        checks := checks + 1;
        return;
      }
      allow := false;
      CutAfterCheck(r.last, target);
      if foundPath {
        RepeatCheck(target);
      }
    }

    /** Where the exploration goes on; a check that has already moved the decisions on
        is not repeated. */
    method FindNextPath() returns (found: bool)
      requires Reliable(oracle)
      requires if allow then |guards| == |dfs.flips| else dfs.flipIndex == 0 && (foundPath <==> dfs.flips != [])
      modifies this, dfs
      ensures allow && dfs.flipIndex == 0 && (found <==> dfs.flips != [])
      ensures found ==> solver == [] && guards == [] && assertions == [] && errors == []
      ensures SearchResult(dfs.flips, checks, terms) ==
        if !old(allow) then SearchResult(old(dfs.flips), old(checks), old(terms))
        else MoveOn(oracle, address, old(solver) + old(assertions), old(guards), old(dfs.flips), old(checks),
                    old(terms))
    {
      if allow {
        BacktrackCheck();
        if allow {
          foundPath := dfs.FindNextPath();
        }
      }
      if foundPath {
        solver, assertions, errors, guards := [], [], [], [];
      }
      allow := true;
      return foundPath;
    }

    /** Is some error possible?  The answer is unsat when the path is refuted; otherwise the
        solver is asked about the assertions and the errors, which stay in it. */
    method Check() returns (r: CheckResult)
      requires Reliable(oracle) && (allow ==> |guards| == |dfs.flips|)
      modifies this`solver, this`guards, this`allow, this`foundPath, this`checks, this`terms, dfs
      ensures errors == [] || !old(allow) ==>
        && r.Unsat? && allow == old(allow) && solver == old(solver) && State() == old(State())
        && checks == old(checks) && terms == old(terms) && dfs.flipIndex == old(dfs.flipIndex)
        && foundPath == old(foundPath)
      ensures errors != [] && old(allow) ==>
        var asserted := old(solver) + assertions;
        if Conflict(oracle, old(checks), asserted, old(guards)) then
          && r.Unsat? && !allow && dfs.flipIndex == 0 && (foundPath <==> dfs.flips != [])
          && SearchResult(dfs.flips, checks, terms) ==
               Search(oracle, address, asserted, old(guards), old(dfs.flips), old(checks), old(terms))
        else
          && allow && State() == old(State()) && terms == old(terms)
          && solver == asserted + [Disjunction(errors)]
          && r == oracle.check(AfterGuards(guards, old(checks)), solver)
          && checks == AfterGuards(guards, old(checks)) + 1
    {
      if errors == [] || !allow {
        return Unsat;
      }
      BacktrackCheck();
      if !allow {
        return Unsat;
      }
      solver := solver + [Disjunction(errors)];
      r := oracle.check(checks, solver);
      checks := checks + 1;
    }
  }
}
