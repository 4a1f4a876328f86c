/** Whole explorations with the backtracking checker: `do { run } while (find_next_path())`,
    with or without `check()` after every run. */
module NonChronologicalExploration {
  import opened Sorting
  import opened Formulas
  import opened DecisionTrees
  import opened PathConditions
  import opened SequentialChecker
  import opened BacktrackChecker
  import opened SearchOutcome
  import opened ExplorationLog
  import opened ExplorationLoss

  /** Every assertion of `p` holds for input `x`, on whatever path it stands. */
  predicate AllAssumed(p: Program, x: Input)
  {
    match p
    case Leaf => true
    case Branch(Literal(b), _, _, _) => AllAssumed(p.Child(b), x)
    case Branch(Term(_), _, _, _) => AllAssumed(p.thn, x) && AllAssumed(p.els, x)
    case Assertion(c, next) => Holds(c, x) && AllAssumed(next, x)
    case Error(_, next) => AllAssumed(next, x)
  }

  predicate AssertionFree(p: Program)
  {
    match p
    case Leaf => true
    case Branch(_, _, _, _) => AssertionFree(p.thn) && AssertionFree(p.els)
    case Assertion(_, _) => false
    case Error(_, next) => AssertionFree(next)
  }

  /** Input `x` reaches leaf `d` and meets every assertion of the program. */
  predicate Reaches(p: Program, d: Path, x: Input)
  {
    Complete(p, d) && PathHolds(p, d, x) && AllAssumed(p, x)
  }

  lemma {:induction false} NothingAssumed(p: Program, x: Input)
    requires AssertionFree(p)
    ensures AllAssumed(p, x)
  {
    match p
    case Leaf =>
    case Branch(_, _, _, _) => NothingAssumed(p.thn, x); NothingAssumed(p.els, x);
    case Error(_, next) => NothingAssumed(next, x);
  }

  lemma {:induction false} AssumedOnPath(p: Program, e: Path, x: Input)
    requires Complete(p, e) && AllAssumed(p, x)
    ensures AllHold(Assertions(p, e), x)
  {
    match p
    case Leaf =>
    case Branch(Literal(b), _, _, _) => AssumedOnPath(p.Child(b), e, x);
    case Branch(Term(_), _, _, _) => AssumedOnPath(p.Child(e[0]), e[1..], x);
    case Assertion(c, next) =>
      AssumedOnPath(next, e, x);
      AllHoldFirst(TermOf(c), Assertions(next, e), x);
    case Error(_, next) => AssumedOnPath(next, e, x);
  }

  /** An input that leads elsewhere shows that the flip towards it is consistent. */
  lemma ReachedSurvives(p: Program, e: Path, d: Path, i: nat, x: Input)
    requires Complete(p, e) && Reaches(p, d, x)
    requires i < |e| && !e[i] && e[..i] + [true] <= d
    ensures SurvivesOn(p, e, i, Assertions(p, e))
  {
    assert d[..i] == (e[..i] + [true])[..i] && d[i] == (e[..i] + [true])[i];
    FlippedHolds(p, e, d, i, x);
    AssumedOnPath(p, e, x);
    OneGuardPerDirection(p, e);
    assert ConsistentTurned(Assertions(p, e), Guards(p, e), e, i);
  }

  /** Inputs that meet all assertions are out of every blind spot of an exploration without
      checks, so without assertions there are none. */
  lemma ReachedIsVisited(p: Program, o: Oracle, address: nat -> nat, d: Path, x: Input)
    requires Reliable(o) && Reaches(p, d, x) && Reachable(p, Dirs(START.flips))
    ensures d in Visits(p, o, address, false, START)
  {
    forall e, i: nat ensures !BlindSpot(p, e, i, d, false) {
      if Complete(p, e) && i < |e| && !e[i] && e[..i] + [true] <= d {
        ReachedSurvives(p, e, d, i, x);
        assert HeldAt(p, e, false) == Assertions(p, e);
      }
    }
    StartTodo(d);
    NothingLost(p, o, address, false, START, d);
  }

  lemma NoAssertionsNoLoss(p: Program, address: nat -> nat)
    requires AssertionFree(p)
    ensures NeverLoses(p, address, false) && !HasBlindSpot(p, false)
  {
    StartReachable(p);
    forall o, d | Reliable(o) && Feasible(p, d) ensures d in Visits(p, o, address, false, START) {
      var x: Input :| PathHolds(p, d, x);
      NothingAssumed(p, x);
      ReachedIsVisited(p, o, address, d, x);
    }
    LosesExactly(p, address, false);
  }

  // ---- Checks after every path find the errors ------------------------------------------------

  /** No core is reported when the asserted terms are inconsistent by themselves: the core
      consists of guards, and none is needed. */
  ghost predicate BlamesNoGuard(o: Oracle)
  {
    forall n, asserted, gs :: !Consistent(asserted, []) ==> o.assume_(n, asserted, gs).NoCore?
  }

  /** Input `x` runs into an error on the way to leaf `d`. */
  predicate FailsOn(p: Program, d: Path, x: Input)
  {
    Reaches(p, d, x) && ErrorOn(p, d, x)
  }

  /** The check at the end of a path on which an input fails is not unsat. */
  lemma CheckSeesError(p: Program, o: Oracle, address: nat -> nat, s: SearchResult, x: Input)
    requires Reliable(o) && Reachable(p, Dirs(s.flips)) && FailsOn(p, RunFrom(p, address, s).path, x)
    ensures !CheckAnswer(o, RunFrom(p, address, s)).Unsat?
  {
    var r := RunFrom(p, address, s);
    PathCondition(p, r.path, x);
    assert AllHold([], x);
    ErrorCondition(p, r.path, [], x);
    assert Consistent(r.assertions, Terms(r.guards));
    if Conflict(o, r.checks, r.assertions, r.guards) {
      CoreRefutes(o, r.checks, r.assertions, Terms(r.guards),
                  o.assume_(r.checks, r.assertions, Terms(r.guards)).last, 0);
    }
    AllHoldAppend(r.assertions, [Disjunction(r.errors)], x);
    AllHoldFirst(Disjunction(r.errors), [], x);
    assert [Disjunction(r.errors)] + [] == [Disjunction(r.errors)];
  }

  /** An unsat check leaves nothing in the solver that could lose a leaf. */
  lemma UnsatCheckKeeps(p: Program, o: Oracle, address: nat -> nat, s: SearchResult, d: Path, x: Input)
    requires Reliable(o) && BlamesNoGuard(o) && Reachable(p, Dirs(s.flips)) && ElseFirst(s.flips)
    requires Reaches(p, d, x) && Pending(RunFrom(p, address, s).flips, d)
    requires CheckAnswer(o, RunFrom(p, address, s)).Unsat?
    ensures Keeps(Move(o, address, RunFrom(p, address, s), true).flips, d)
  {
    var r := RunFrom(p, address, s);
    var i := PendingIsTurned(p, address, s, d);
    EndDirs(p, s.flips);
    EndElseFirst(s.flips, |r.path|);
    ReachedSurvives(p, r.path, d, i, x);
    if r.errors == [] || RefutedByCheck(o, r) {
      if Conflict(o, r.checks, r.assertions, r.guards) {
        SearchKeeps(p, o, address, r, r.assertions, r.checks, d, i);
      } else {
        NextFlipsKeepsPending(r.flips, d);
      }
    } else {
      ErrorsRefuted(o, r);
      NextFlipsKeepsPending(r.flips, d);
    }
  }

  lemma ErrorsRefuted(o: Oracle, r: Ended)
    requires Reliable(o) && r.errors != [] && !RefutedByCheck(o, r) && CheckAnswer(o, r).Unsat?
    ensures !Consistent(SolverContents(r, true), [])
  {
    HeldTwice(r.assertions, [Disjunction(r.errors)], []);
  }

  lemma {:induction false} FindsFrom(p: Program, o: Oracle, address: nat -> nat, s: SearchResult, d: Path, x: Input)
    requires Reliable(o) && BlamesNoGuard(o) && Reachable(p, Dirs(s.flips)) && ElseFirst(s.flips)
    requires FailsOn(p, d, x) && Todo(s.flips, d)
    ensures Finds(p, o, address, s)
    decreases TodoSet(p, s.flips)
  {
    var r := RunFrom(p, address, s);
    MovesOn(p, o, address, s, true);
    TodoAtEnd(p, s.flips, d);
    if d == r.path {
      CheckSeesError(p, o, address, s, x);
    } else if CheckAnswer(o, r).Unsat? {
      UnsatCheckKeeps(p, o, address, s, d, x);
      EndElseFirst(s.flips, |r.path|);
      MoveElseFirst(o, address, r, true);
      FindsFrom(p, o, address, Move(o, address, r, true), d, x);
    }
  }

  /** Main result: if some input meets all assertions of the program and runs into an error,
      then a check after every path finds an error possible, for every reliable solver that
      does not blame guards for what is inconsistent without them. */
  lemma ChecksFindErrors(p: Program, o: Oracle, address: nat -> nat, d: Path, x: Input)
    requires Reliable(o) && BlamesNoGuard(o) && FailsOn(p, d, x)
    ensures Reachable(p, Dirs(START.flips)) && Finds(p, o, address, START)
  {
    StartReachable(p);
    StartTodo(d);
    FindsFrom(p, o, address, START, d, x);
  }

  // ---- The explorations --------------------------------------------------------------------------

  /** What the checker holds at the end of a run from `s`. */
  ghost predicate AtEnd(c: BacktrackDfsChecker, r: Ended)
    reads c, c.dfs
  {
    && c.allow && c.State() == Progress(r.flips, r.guards, r.assertions, r.errors)
    && c.checks == r.checks && c.terms == r.terms
  }

  /** In the middle of a run: `done` is followed, `cur` is ahead. */
  ghost predicate Underway(p: Program, address: nat -> nat, s: SearchResult, g: Progress, terms: nat, done: Path,
                           cur: Program)
    requires Reachable(p, Dirs(s.flips))
  {
    terms == s.terms + |g.guards| && Along(p, s.flips, RunFrom(p, address, s), g, done, cur)
  }

  ghost predicate Along(p: Program, flips: seq<Flip>, r: Ended, g: Progress, done: Path, cur: Program)
  {
    var n := |g.guards|;
    && n == |done| <= |r.path| && n <= |r.guards| && r.path[..n] == done
    && Rest(flips, r.path, cur, n)
    && g.flips == EndFlips(flips, if n < |flips| then |flips| else n)
    && g.guards == r.guards[..n]
    && Terms(r.guards) == Guards(p, r.path) && Guards(p, r.path)[n..] == Guards(cur, r.path[n..])
    && r.assertions == g.assertions + Assertions(cur, r.path[n..])
    && r.errors == g.errors + Errors(cur, r.path[n..], Terms(g.guards))
  }

  /** The rest of the path is what `cur` makes of the rest of the flips. */
  ghost predicate Rest(flips: seq<Flip>, e: Path, cur: Program, n: nat)
    requires n <= |e|
  {
    e[n..] == Follow(cur, if n < |flips| then Dirs(flips)[n..] else [])
  }

  lemma StartUnderway(p: Program, address: nat -> nat, s: SearchResult)
    requires Reachable(p, Dirs(s.flips))
    ensures Underway(p, address, s, Progress(s.flips, [], [], []), s.terms, [], p)
  {
    var r := RunFrom(p, address, s);
    EndDirs(p, s.flips);
    assert r.path[0..] == r.path && Dirs(s.flips)[0..] == Dirs(s.flips);
    assert EndFlips(s.flips, |s.flips|) == s.flips;
    assert Guards(p, r.path)[0..] == Guards(p, r.path);
    assert r.guards[..0] == [] && Terms([]) == [];
  }

  lemma LiteralUnderway(p: Program, address: nat -> nat, s: SearchResult, g: Progress, terms: nat, done: Path,
                        cur: Program)
    requires Reachable(p, Dirs(s.flips)) && Underway(p, address, s, g, terms, done, cur)
    requires cur.Branch? && cur.cond.Literal?
    ensures Underway(p, address, s, g, terms, done, cur.Child(cur.cond.value))
  {
  }

  /** The checker takes the direction of the path that is followed. */
  lemma DirectionFollowed(flips: seq<Flip>, e: Path, cur: Program, n: nat, flips': seq<Flip>, d: bool)
    requires n <= |e| && Rest(flips, e, cur, n) && cur.Branch? && cur.cond.Term?
    requires flips' == EndFlips(flips, if n < |flips| then |flips| else n)
    requires d == (n < |flips'| && flips'[n].direction)
    ensures n < |e| && e[n] == d && e[n..] == [d] + e[n + 1..] && Rest(flips, e, cur.Child(d), n + 1)
  {
    assert n < |flips| ==> flips'[n] == flips'[..|flips|][n];
    var rest := if n < |flips| then Dirs(flips)[n..] else [];
    assert rest != [] ==> rest[0] == Dirs(flips)[n];
    assert e[n..] == Follow(cur, rest);
    assert e[n..][0] == e[n] && e[n..][1..] == e[n + 1..];
    assert rest != [] ==> rest[1..] == if n + 1 < |flips| then Dirs(flips)[n + 1..] else [];
    assert Follow(cur, rest)[1..] == Follow(cur.Child(d), if rest == [] then [] else rest[1..]);
  }

  lemma FlipsRecorded(flips: seq<Flip>, n: nat)
    ensures var now := EndFlips(flips, if n < |flips| then |flips| else n);
      EndFlips(flips, if n + 1 < |flips| then |flips| else n + 1) ==
        if n < |flips| then now else now + [Flip(false, false)]
  {
  }

  lemma GuardRecorded(all: seq<Guard>, terms: seq<Formula>, n: nat, f: Formula, rest: seq<Formula>)
    requires Terms(all) == terms && n <= |terms| && terms[n..] == [f] + rest
    ensures n < |all| && all[n].term == f && all[..n + 1] == all[..n] + [all[n]] && terms[n + 1..] == rest
    ensures Terms(all[..n + 1]) == Terms(all[..n]) + [f]
  {
    assert terms[n..][0] == terms[n] && terms[n..][1..] == terms[n + 1..];
  }

  lemma BranchUnderway(p: Program, address: nat -> nat, s: SearchResult, g: Progress, terms: nat, done: Path,
                       cur: Program, d: bool, g': Progress)
    requires Reachable(p, Dirs(s.flips)) && Underway(p, address, s, g, terms, done, cur)
    requires cur.Branch? && cur.cond.Term? && BranchRecorded(g, cur.cond, d, address(terms), g')
    ensures Underway(p, address, s, g', terms + 1, done + [d], cur.Child(d))
  {
    BranchFollowed(p, s.flips, RunFrom(p, address, s), g, done, cur, d, address(terms), g');
  }

  /** The path and the guards go on with the direction taken. */
  lemma BranchFollowed(p: Program, flips: seq<Flip>, r: Ended, g: Progress, done: Path, cur: Program, d: bool, a: nat,
                       g': Progress)
    requires Along(p, flips, r, g, done, cur) && |r.guards| == |r.path|
    requires cur.Branch? && cur.cond.Term? && BranchRecorded(g, cur.cond, d, a, g')
    requires |g.guards| < |r.guards| ==> r.guards[|g.guards|].addr == a
    ensures Along(p, flips, r, g', done + [d], cur.Child(d))
  {
    var n := |g.guards|;
    FlipsRecorded(flips, n);
    DirectionFollowed(flips, r.path, cur, n, g.flips, d);
    GuardFollows(cur, r.path, n, d, done, r.guards, Guards(p, r.path), g.guards);
  }

  lemma GuardFollows(cur: Program, e: Path, n: nat, d: bool, done: Path, all: seq<Guard>, terms: seq<Formula>,
                     guards: seq<Guard>)
    requires cur.Branch? && cur.cond.Term? && n < |e| && e[..n] == done && e[n] == d
    requires Terms(all) == terms && n <= |terms| && guards == all[..n] && terms[n..] == Guards(cur, e[n..])
    ensures n < |all| && all[..n + 1] == guards + [Guard(all[n].addr, Direct(cur.cond.formula, d))]
    ensures e[..n + 1] == done + [d] && terms[n + 1..] == Guards(cur.Child(d), e[n + 1..])
    ensures forall a ::
      Terms(guards + [Guard(a, Direct(cur.cond.formula, d))]) == Terms(guards) + [Direct(cur.cond.formula, d)]
    ensures Assertions(cur, e[n..]) == Assertions(cur.Child(d), e[n + 1..])
    ensures Errors(cur, e[n..], Terms(guards))
         == Errors(cur.Child(d), e[n + 1..], Terms(guards) + [Direct(cur.cond.formula, d)])
  {
    assert e[n..][1..] == e[n + 1..] && e[n..][0] == d;
    GuardRecorded(all, terms, n, Direct(cur.cond.formula, d), Guards(cur.Child(d), e[n + 1..]));
  }

  lemma AssertionUnderway(p: Program, address: nat -> nat, s: SearchResult, g: Progress, terms: nat, done: Path,
                          cur: Program)
    requires Reachable(p, Dirs(s.flips)) && Underway(p, address, s, g, terms, done, cur) && cur.Assertion?
    ensures Underway(p, address, s, g.(assertions := g.assertions + [TermOf(cur.cond)]), terms, done, cur.next)
  {
  }

  lemma ErrorUnderway(p: Program, address: nat -> nat, s: SearchResult, g: Progress, terms: nat, done: Path,
                      cur: Program)
    requires Reachable(p, Dirs(s.flips)) && Underway(p, address, s, g, terms, done, cur) && cur.Error?
    ensures var g' := g.(errors := g.errors + [ErrorTerm(Terms(g.guards), cur.cond)]);
      Underway(p, address, s, g', terms, done, cur.next)
  {
  }

  lemma UnderwayEnds(p: Program, address: nat -> nat, s: SearchResult, g: Progress, terms: nat, done: Path)
    requires Reachable(p, Dirs(s.flips)) && Underway(p, address, s, g, terms, done, Leaf)
    ensures var r := RunFrom(p, address, s);
      done == r.path && g == Progress(r.flips, r.guards, r.assertions, r.errors) && terms == r.terms
  {
    var r, n := RunFrom(p, address, s), |g.guards|;
    EndDirs(p, s.flips);
    assert r.path[n..] == [];
    assert r.path[..|r.path|] == r.path && r.guards[..|r.guards|] == r.guards;
  }

  /** One branch, one assertion or one error of the program. */
  method StepBranch(c: BacktrackDfsChecker, cur: Program, ghost p: Program, ghost s: SearchResult, ghost done: Path)
    returns (next: Program, taken: Path)
    requires cur.Branch? && c.allow && c.dfs.flipIndex == |c.guards| <= |c.dfs.flips|
    requires Reachable(p, Dirs(s.flips)) && Underway(p, c.address, s, c.State(), c.terms, done, cur)
    modifies c`guards, c`terms, c.dfs
    ensures next < cur && c.dfs.flipIndex == |c.guards| <= |c.dfs.flips|
    ensures Underway(p, c.address, s, c.State(), c.terms, done + taken, next)
  {
    ghost var g, terms := c.State(), c.terms;
    var d := c.Branch(cur.cond);
    next := cur.Child(d);
    if cur.cond.Term? {
      taken := [d];
      BranchUnderway(p, c.address, s, g, terms, done, cur, d, c.State());
    } else {
      taken := [];
      assert done + [] == done;
      LiteralUnderway(p, c.address, s, g, terms, done, cur);
    }
  }

  method StepAssertion(c: BacktrackDfsChecker, cur: Program, ghost p: Program, ghost s: SearchResult, ghost done: Path)
    requires cur.Assertion?
    requires Reachable(p, Dirs(s.flips)) && Underway(p, c.address, s, c.State(), c.terms, done, cur)
    modifies c`assertions
    ensures Underway(p, c.address, s, c.State(), c.terms, done, cur.next)
  {
    ghost var g := c.State();
    c.AddAssertion(cur.cond);
    AssertionUnderway(p, c.address, s, g, c.terms, done, cur);
  }

  method StepError(c: BacktrackDfsChecker, cur: Program, ghost p: Program, ghost s: SearchResult, ghost done: Path)
    requires cur.Error?
    requires Reachable(p, Dirs(s.flips)) && Underway(p, c.address, s, c.State(), c.terms, done, cur)
    modifies c`errors
    ensures Underway(p, c.address, s, c.State(), c.terms, done, cur.next)
  {
    ghost var g := c.State();
    c.AddError(cur.cond);
    ErrorUnderway(p, c.address, s, g, c.terms, done, cur);
  }

  /** Execute `p` once, from its start. */
  method Run(c: BacktrackDfsChecker, p: Program) returns (leaf: Path)
    requires c.allow && c.guards == [] && c.assertions == [] && c.errors == [] && c.dfs.flipIndex == 0
    requires Reachable(p, Dirs(c.dfs.flips))
    modifies c`guards, c`terms, c`assertions, c`errors, c.dfs
    ensures AtEnd(c, RunFrom(p, c.address, SearchResult(old(c.dfs.flips), old(c.checks), old(c.terms))))
    ensures leaf == Follow(p, Dirs(old(c.dfs.flips)))
  {
    ghost var s := SearchResult(c.dfs.flips, c.checks, c.terms);
    var cur := p;
    leaf := [];
    StartUnderway(p, c.address, s);
    while !cur.Leaf?
      invariant c.dfs.flipIndex == |c.guards| <= |c.dfs.flips|
      invariant Underway(p, c.address, s, c.State(), c.terms, leaf, cur)
      decreases cur
    {
      match cur
      case Branch(_, _, _, _) =>
        var taken;
        cur, taken := StepBranch(c, cur, p, s, leaf);
        leaf := leaf + taken;
      case Assertion(_, next) =>
        StepAssertion(c, cur, p, s, leaf);
        cur := next;
      case Error(_, next) =>
        StepError(c, cur, p, s, leaf);
        cur := next;
    }
    UnderwayEnds(p, c.address, s, c.State(), c.terms, leaf);
  }

  /** The error terms of the visited paths. */
  function AllErrors(p: Program, log: seq<Path>): seq<Formula>
  {
    if log == [] then [] else AllErrors(p, log[..|log| - 1]) + Errors(p, log[|log| - 1], [])
  }

  lemma {:induction false} AllErrorsCover(p: Program, log: seq<Path>, d: Path, x: Input)
    requires d in log && Complete(p, d) && PathHolds(p, d, x) && ErrorOn(p, d, x)
    ensures AnyHolds(AllErrors(p, log), x)
  {
    var front, last := log[..|log| - 1], log[|log| - 1];
    var before, errors := AllErrors(p, front), Errors(p, last, []);
    assert log == front + [last];
    if d == last {
      PathCondition(p, d, x);
      assert AllHold([], x);
      ErrorCondition(p, d, [], x);
      var i :| 0 <= i < |errors| && Eval(errors[i], x);
      assert (before + errors)[|before| + i] == errors[i];
    } else {
      AllErrorsCover(p, front, d, x);
      var i :| 0 <= i < |before| && Eval(before[i], x);
      assert (before + errors)[i] == before[i];
    }
  }

  /** Ready for a run from `s`. */
  ghost predicate Ready(c: BacktrackDfsChecker, s: SearchResult)
    reads c, c.dfs
  {
    && c.allow && c.solver == [] && c.State() == Progress(s.flips, [], [], [])
    && c.dfs.flipIndex == 0 && c.checks == s.checks && c.terms == s.terms
  }

  /** Between two paths: `log` has been visited, and while there is `more`, the exploration
      goes on from `s`. */
  ghost predicate Logged(p: Program, o: Oracle, address: nat -> nat, checked: bool, log: seq<Path>, more: bool,
                         s: SearchResult)
    requires Reliable(o)
  {
    && Reachable(p, Dirs(START.flips))
    && (if more then
          && Reachable(p, Dirs(s.flips))
          && Visits(p, o, address, checked, START) == log + Visits(p, o, address, checked, s)
        else log == Visits(p, o, address, checked, START))
  }

  lemma StartLog(p: Program, o: Oracle, address: nat -> nat, checked: bool)
    requires Reliable(o)
    ensures Logged(p, o, address, checked, [], true, START)
  {
    StartReachable(p);
  }

  lemma LogOneMore(p: Program, o: Oracle, address: nat -> nat, checked: bool, log: seq<Path>, s: SearchResult)
    requires Reliable(o) && Logged(p, o, address, checked, log, true, s)
    ensures var s' := Move(o, address, RunFrom(p, address, s), checked);
      && Logged(p, o, address, checked, log + [RunFrom(p, address, s).path], s'.flips != [], s')
      && (s'.flips != [] ==> TodoSet(p, s'.flips) < TodoSet(p, s.flips))
  {
    MovesOn(p, o, address, s, checked);
    VisitsUnfold(p, o, address, checked, s);
    var path, s' := RunFrom(p, address, s).path, Move(o, address, RunFrom(p, address, s), checked);
    AppendFirst(log, path, if s'.flips == [] then [] else Visits(p, o, address, checked, s'));
  }

  lemma AppendFirst(log: seq<Path>, d: Path, rest: seq<Path>)
    ensures log + ([d] + rest) == (log + [d]) + rest
    ensures rest == [] ==> log + ([d] + rest) == log + [d]
  {
  }

  /** One run of the program, and where to go on. */
  method Visit(c: BacktrackDfsChecker, p: Program, ghost s: SearchResult)
    returns (leaf: Path, errors: seq<Formula>, more: bool)
    requires Reliable(c.oracle) && Ready(c, s) && Reachable(p, Dirs(s.flips))
    modifies c, c.dfs
    ensures var r := RunFrom(p, c.address, s);
      && leaf == r.path && errors == r.errors
      && var s' := Move(c.oracle, c.address, r, false);
        (more <==> s'.flips != []) && (more ==> Ready(c, s'))
  {
    leaf := Run(c, p);
    errors := c.errors;
    assert [] + c.assertions == c.assertions;
    more := c.FindNextPath();
  }

  /** The same with a check at the end of the run. */
  method VisitChecking(c: BacktrackDfsChecker, p: Program, ghost s: SearchResult)
    returns (leaf: Path, answer: CheckResult, more: bool)
    requires Reliable(c.oracle) && Ready(c, s) && Reachable(p, Dirs(s.flips))
    modifies c, c.dfs
    ensures var r := RunFrom(p, c.address, s);
      && leaf == r.path && answer == CheckAnswer(c.oracle, r)
      && var s' := Move(c.oracle, c.address, r, true);
        (more <==> s'.flips != []) && (more ==> Ready(c, s'))
  {
    leaf := Run(c, p);
    answer, more := CheckAndMove(c, RunFrom(p, c.address, s));
  }

  /** `check()` and `find_next_path()` at the end of a run. */
  method CheckAndMove(c: BacktrackDfsChecker, ghost r: Ended) returns (answer: CheckResult, more: bool)
    requires Reliable(c.oracle) && c.solver == [] && |r.guards| == |r.flips| && AtEnd(c, r)
    modifies c, c.dfs
    ensures answer == CheckAnswer(c.oracle, r)
    ensures var s := Move(c.oracle, c.address, r, true);
      (more <==> s.flips != []) && (more ==> Ready(c, s))
  {
    assert [] + r.assertions == r.assertions;
    answer := c.Check();
    more := c.FindNextPath();
  }

  /** The exploration of all of `p`, without checks in between. */
  method Explore(p: Program, oracle: Oracle, address: nat -> nat) returns (log: seq<Path>, reports: seq<Formula>)
    requires Reliable(oracle)
    ensures Reachable(p, Dirs(START.flips)) && log == Visits(p, oracle, address, false, START)
    ensures reports == AllErrors(p, log)
    ensures NoDuplicates(log) && forall d :: d in log ==> Complete(p, d)
    ensures forall d, x: Input :: Reaches(p, d, x) ==> d in log && (ErrorOn(p, d, x) ==> AnyHolds(reports, x))
  {
    var c := new BacktrackDfsChecker(oracle, address);
    log, reports := [], [];
    ghost var s := START;
    var more := true;
    StartLog(p, oracle, address, false);
    while more
      invariant fresh(c) && fresh(c.dfs) && c.oracle == oracle && c.address == address
      invariant more ==> Ready(c, s)
      invariant Logged(p, oracle, address, false, log, more, s)
      invariant reports == AllErrors(p, log)
      decreases more, if more then TodoSet(p, s.flips) else {}
    {
      LogOneMore(p, oracle, address, false, log, s);
      ghost var s' := Move(oracle, address, RunFrom(p, address, s), false);
      var leaf, errors;
      leaf, errors, more := Visit(c, p, s);
      assert (log + [leaf])[..|log|] == log;
      log, reports, s := log + [leaf], reports + errors, s';
    }
    ExploreMeaning(p, oracle, address, log);
  }

  lemma ExploreMeaning(p: Program, o: Oracle, address: nat -> nat, log: seq<Path>)
    requires Reliable(o) && Reachable(p, Dirs(START.flips)) && log == Visits(p, o, address, false, START)
    ensures NoDuplicates(log) && forall d :: d in log ==> Complete(p, d)
    ensures forall d, x: Input :: Reaches(p, d, x) ==> d in log && (ErrorOn(p, d, x) ==> AnyHolds(AllErrors(p, log), x))
  {
    VisitsOnce(p, o, address, false, START);
    forall d | d in log ensures Complete(p, d) {
      VisitsAreTodo(p, o, address, false, START, d);
    }
    forall d, x: Input | Reaches(p, d, x) ensures d in log && (ErrorOn(p, d, x) ==> AnyHolds(AllErrors(p, log), x)) {
      ReachedIsVisited(p, o, address, d, x);
      if ErrorOn(p, d, x) {
        AllErrorsCover(p, log, d, x);
      }
    }
  }

  /** The errors found so far and still to be found. */
  ghost predicate FoundSoFar(p: Program, o: Oracle, address: nat -> nat, found: bool, more: bool, s: SearchResult)
    requires Reliable(o)
  {
    && Reachable(p, Dirs(START.flips)) && (more ==> Reachable(p, Dirs(s.flips)))
    && (Finds(p, o, address, START) <==> found || (more && Finds(p, o, address, s)))
  }

  lemma FindOneMore(p: Program, o: Oracle, address: nat -> nat, found: bool, s: SearchResult)
    requires Reliable(o) && FoundSoFar(p, o, address, found, true, s)
    ensures var r := RunFrom(p, address, s);
      var s' := Move(o, address, r, true);
      FoundSoFar(p, o, address, found || !CheckAnswer(o, r).Unsat?, s'.flips != [], s')
  {
    MovesOn(p, o, address, s, true);
  }

  /** The exploration of all of `p` with a check after every path. */
  method ExploreChecking(p: Program, oracle: Oracle, address: nat -> nat) returns (log: seq<Path>, found: bool)
    requires Reliable(oracle)
    ensures Reachable(p, Dirs(START.flips)) && log == Visits(p, oracle, address, true, START)
    ensures found <==> Finds(p, oracle, address, START)
    ensures NoDuplicates(log) && forall d :: d in log ==> Complete(p, d)
    ensures BlamesNoGuard(oracle) && (exists d, x: Input :: FailsOn(p, d, x)) ==> found
    ensures Conclusive(oracle) && found ==> HasStop(p, log)
  {
    var c := new BacktrackDfsChecker(oracle, address);
    log, found := [], false;
    ghost var s := START;
    var more := true;
    StartLog(p, oracle, address, true);
    while more
      invariant fresh(c) && fresh(c.dfs) && c.oracle == oracle && c.address == address
      invariant more ==> Ready(c, s)
      invariant Logged(p, oracle, address, true, log, more, s)
      invariant FoundSoFar(p, oracle, address, found, more, s)
      decreases more, if more then TodoSet(p, s.flips) else {}
    {
      LogOneMore(p, oracle, address, true, log, s);
      FindOneMore(p, oracle, address, found, s);
      ghost var s' := Move(oracle, address, RunFrom(p, address, s), true);
      var leaf, answer;
      leaf, answer, more := VisitChecking(c, p, s);
      log, found, s := log + [leaf], found || !answer.Unsat?, s';
    }
    CheckingMeaning(p, oracle, address);
  }

  /** Some input meets the assertions of a path of the log, and goes along it until it runs into
      an error. */
  ghost predicate HasStop(p: Program, log: seq<Path>)
  {
    exists e :: e in log && IsStop(p, e)
  }

  ghost predicate IsStop(p: Program, e: Path)
  {
    exists x: Input :: AllHold(Assertions(p, e), x) && StopsOn(p, e, x)
  }

  /** An answer other than unsat of a conclusive solver is about such an input. */
  lemma CheckIsStop(p: Program, o: Oracle, address: nat -> nat, s: SearchResult)
    requires Conclusive(o) && Reachable(p, Dirs(s.flips)) && !CheckAnswer(o, RunFrom(p, address, s)).Unsat?
    ensures IsStop(p, RunFrom(p, address, s).path)
  {
    var r := RunFrom(p, address, s);
    var asked := r.assertions + [Disjunction(r.errors)];
    assert Satisfiable(asked);
    var x: Input :| AllHold(asked, x);
    AllHoldAppend(r.assertions, [Disjunction(r.errors)], x);
    assert Eval([Disjunction(r.errors)][0], x);
    ErrorsAreStops(p, r.path, [], x);
    assert AllHold([], x);
  }

  lemma {:induction false} FindsAreStops(p: Program, o: Oracle, address: nat -> nat, s: SearchResult)
    requires Conclusive(o) && Reachable(p, Dirs(s.flips)) && Finds(p, o, address, s)
    ensures HasStop(p, Visits(p, o, address, true, s))
    decreases TodoSet(p, s.flips)
  {
    var r := RunFrom(p, address, s);
    var s' := Move(o, address, r, true);
    MovesOn(p, o, address, s, true);
    VisitsUnfold(p, o, address, true, s);
    if !CheckAnswer(o, r).Unsat? {
      CheckIsStop(p, o, address, s);
      assert r.path in Visits(p, o, address, true, s);
    } else {
      FindsAreStops(p, o, address, s');
      var e :| e in Visits(p, o, address, true, s') && IsStop(p, e);
      assert e in Visits(p, o, address, true, s);
    }
  }

  lemma CheckingMeaning(p: Program, o: Oracle, address: nat -> nat)
    requires Reliable(o)
    ensures Reachable(p, Dirs(START.flips))
    ensures var log := Visits(p, o, address, true, START);
      NoDuplicates(log) && forall d :: d in log ==> Complete(p, d)
    ensures BlamesNoGuard(o) && (exists d, x: Input :: FailsOn(p, d, x)) ==> Finds(p, o, address, START)
    ensures Conclusive(o) && Finds(p, o, address, START) ==> HasStop(p, Visits(p, o, address, true, START))
  {
    StartReachable(p);
    VisitsOnce(p, o, address, true, START);
    forall d | d in Visits(p, o, address, true, START) ensures Complete(p, d) {
      VisitsAreTodo(p, o, address, true, START, d);
    }
    if Conclusive(o) && Finds(p, o, address, START) {
      FindsAreStops(p, o, address, START);
    }
    if BlamesNoGuard(o) && exists d, x: Input :: FailsOn(p, d, x) {
      var d, x: Input :| FailsOn(p, d, x);
      ChecksFindErrors(p, o, address, d, x);
    }
  }
}
