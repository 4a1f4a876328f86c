/** Whole explorations with the backtracking checker as functions of the program and the
    solver, with or without a check for errors after every path. */
module ExplorationLog {
  import opened Sorting
  import opened Formulas
  import opened DecisionTrees
  import opened PathConditions
  import opened BacktrackChecker
  import opened SearchOutcome

  // ---- One path ----------------------------------------------------------------------------

  /** The decisions at the end of a path of length `n`. */
  function EndFlips(flips: seq<Flip>, n: nat): (r: seq<Flip>)
    requires |flips| <= n
    ensures |r| == n && r[..|flips|] == flips
    ensures forall j :: |flips| <= j < n ==> r[j] == Flip(false, false)
  {
    flips + seq(n - |flips|, _ => Flip(false, false))
  }

  /** The guards of a path, with the addresses of their terms. */
  function GuardList(gs: seq<Formula>, address: nat -> nat, terms: nat): (r: seq<Guard>)
    ensures |r| == |gs| && Terms(r) == gs
    ensures forall k :: 0 <= k < |r| ==> r[k] == Guard(address(terms + k), gs[k])
  {
    var r := seq(|gs|, k requires 0 <= k < |gs| => Guard(address(terms + k), gs[k]));
    assert Terms(r) == gs;
    r
  }

  /** The path followed from some decisions, and what the checker has at its end. */
  datatype Ended = Ended(path: Path, flips: seq<Flip>, guards: seq<Guard>, assertions: seq<Formula>,
                         errors: seq<Formula>, checks: nat, terms: nat)

  function RunFrom(p: Program, address: nat -> nat, s: SearchResult): (r: Ended)
    requires Reachable(p, Dirs(s.flips))
    ensures |r.guards| == |r.flips| == |r.path|
  {
    var e := Follow(p, Dirs(s.flips));
    FollowCompletes(p, Dirs(s.flips));
    OneGuardPerDirection(p, e);
    Ended(e, EndFlips(s.flips, |e|), GuardList(Guards(p, e), address, s.terms), Assertions(p, e), Errors(p, e, []),
          s.checks, s.terms + |e|)
  }

  /** What is asserted in the solver when the search for another path starts. */
  function SolverContents(r: Ended, checked: bool): seq<Formula>
  {
    if checked && r.errors != [] then r.assertions + [Disjunction(r.errors)] + r.assertions else r.assertions
  }

  /** Is the path refuted by the check for errors already? */
  ghost predicate RefutedByCheck(o: Oracle, r: Ended)
  {
    r.errors != [] && Conflict(o, r.checks, r.assertions, r.guards)
  }

  /** The number of checks when the search for another path starts. */
  function ChecksBefore(r: Ended, checked: bool): nat
  {
    if checked && r.errors != [] then AfterGuards(r.guards, r.checks) + 1 else r.checks
  }

  /** The answer of a check for errors at the end of a path. */
  ghost function CheckAnswer(o: Oracle, r: Ended): CheckResult
  {
    if r.errors == [] || RefutedByCheck(o, r) then Unsat
    else o.check(AfterGuards(r.guards, r.checks), r.assertions + [Disjunction(r.errors)])
  }

  /** Where the exploration goes on. */
  ghost function Move(o: Oracle, address: nat -> nat, r: Ended, checked: bool): SearchResult
    requires Reliable(o) && |r.guards| == |r.flips|
  {
    if checked && RefutedByCheck(o, r) then
      Search(o, address, r.assertions, r.guards, r.flips, r.checks, r.terms)
    else
      MoveOn(o, address, SolverContents(r, checked), r.guards, r.flips, ChecksBefore(r, checked), r.terms)
  }

  // ---- What is to do before and after a path -------------------------------------------------

  lemma EndDirs(p: Program, flips: seq<Flip>)
    requires Reachable(p, Dirs(flips))
    ensures var e := Follow(p, Dirs(flips));
      |flips| <= |e| && Dirs(EndFlips(flips, |e|)) == e && Complete(p, e)
  {
    FollowCompletes(p, Dirs(flips));
    var e := Follow(p, Dirs(flips));
    var r := EndFlips(flips, |e|);
    forall j | 0 <= j < |e| ensures Dirs(r)[j] == e[j] {
      if j < |flips| {
        assert r[j] == r[..|flips|][j] && e[j] == e[..|flips|][j] == Dirs(flips)[j];
      }
    }
  }

  /** What was to do is the path followed and what is pending at its end. */
  lemma TodoAtEnd(p: Program, flips: seq<Flip>, d: Path)
    requires Reachable(p, Dirs(flips)) && Complete(p, d)
    ensures var e := Follow(p, Dirs(flips));
      && |flips| <= |e|
      && (Todo(flips, d) <==> d == e || Pending(EndFlips(flips, |e|), d))
      && !Pending(EndFlips(flips, |e|), e)
  {
    EndDirs(p, flips);
    var e := Follow(p, Dirs(flips));
    FollowCompletes(p, Dirs(flips));
    var r := EndFlips(flips, |e|);
    CurrentIsNotPending(r, e);
    if Dirs(flips) <= d && d != e {
      var i := PathsPart(p, d, e);
      assert Dirs(flips) <= e && i >= |flips|;
      assert DivergesAt(r, d, i);
    }
    EndPending(flips, |e|, d);
  }

  lemma EndPending(flips: seq<Flip>, n: nat, d: Path)
    requires |flips| <= n
    ensures Pending(flips, d) ==> Pending(EndFlips(flips, n), d)
    ensures Pending(EndFlips(flips, n), d) ==> Todo(flips, d)
  {
    var r := EndFlips(flips, n);
    assert Dirs(r)[..|flips|] == Dirs(flips) by {
      assert forall j :: 0 <= j < |flips| ==> r[j] == r[..|flips|][j];
    }
    if i: nat :| i < |flips| && DivergesAt(flips, d, i) {
      assert r[i] == r[..|flips|][i];
      assert Dirs(r)[..i] == Dirs(r)[..|flips|][..i] == Dirs(flips)[..i];
      assert DivergesAt(r, d, i);
    }
    if i: nat :| i < |r| && DivergesAt(r, d, i) {
      if i < |flips| {
        assert r[i] == r[..|flips|][i];
        assert Dirs(r)[..i] == Dirs(r)[..|flips|][..i] == Dirs(flips)[..i];
        assert DivergesAt(flips, d, i);
      } else {
        assert d[..|flips|] == d[..i][..|flips|] == Dirs(r)[..i][..|flips|] == Dirs(flips);
      }
    }
  }

  /** Moving on leads to decisions that can be followed, and only to pending leaves. */
  lemma MoveNarrows(p: Program, o: Oracle, address: nat -> nat, r: Ended, checked: bool, d: Path)
    requires Reliable(o) && |r.guards| == |r.flips| && Reachable(p, Dirs(r.flips))
    ensures Reachable(p, Dirs(Move(o, address, r, checked).flips))
    ensures Keeps(Move(o, address, r, checked).flips, d) ==> Pending(r.flips, d)
  {
    NextFlipsReachable(p, r.flips);
    NextFlipsKeepsPending(r.flips, d);
    if checked && RefutedByCheck(o, r) {
      SearchNarrows(o, address, r.assertions, r.guards, r.flips, r.checks, r.terms, d);
      SearchReachable(p, o, address, r.assertions, r.guards, r.flips, r.checks, r.terms);
    } else if Conflict(o, ChecksBefore(r, checked), SolverContents(r, checked), r.guards) {
      SearchNarrows(o, address, SolverContents(r, checked), r.guards, r.flips, ChecksBefore(r, checked), r.terms, d);
      SearchReachable(p, o, address, SolverContents(r, checked), r.guards, r.flips, ChecksBefore(r, checked), r.terms);
    }
  }

  /** Every path brings the exploration closer to its end. */
  lemma MovesOn(p: Program, o: Oracle, address: nat -> nat, s: SearchResult, checked: bool)
    requires Reliable(o) && Reachable(p, Dirs(s.flips))
    ensures var s' := Move(o, address, RunFrom(p, address, s), checked);
      Reachable(p, Dirs(s'.flips)) && (s'.flips != [] ==> TodoSet(p, s'.flips) < TodoSet(p, s.flips))
  {
    var r := RunFrom(p, address, s);
    var s' := Move(o, address, r, checked);
    EndDirs(p, s.flips);
    ReachableComplete(p, r.path);
    MoveNarrows(p, o, address, r, checked, r.path);
    if s'.flips != [] {
      forall d | d in TodoSet(p, s'.flips) ensures d in TodoSet(p, s.flips) {
        LeavesAreComplete(p, d);
        MoveNarrows(p, o, address, r, checked, d);
        TodoAtEnd(p, s.flips, d);
      }
      LeavesAreComplete(p, r.path);
      TodoAtEnd(p, s.flips, r.path);
      assert r.path in TodoSet(p, s.flips) && r.path !in TodoSet(p, s'.flips);
    }
  }

  lemma {:induction false} ReachableComplete(p: Program, e: Path)
    requires Complete(p, e)
    ensures Reachable(p, e)
  {
    match p
    case Leaf =>
    case Branch(Literal(b), _, _, _) => ReachableComplete(p.Child(b), e);
    case Branch(Term(_), _, _, _) => ReachableComplete(p.Child(e[0]), e[1..]);
    case Assertion(_, next) => ReachableComplete(next, e);
    case Error(_, next) => ReachableComplete(next, e);
  }

  // ---- Whole explorations -----------------------------------------------------------------------

  /** The paths visited, in order. */
  ghost function Visits(p: Program, o: Oracle, address: nat -> nat, checked: bool, s: SearchResult): seq<Path>
    requires Reliable(o) && Reachable(p, Dirs(s.flips))
    decreases TodoSet(p, s.flips)
  {
    var r := RunFrom(p, address, s);
    var s' := Move(o, address, r, checked);
    MovesOn(p, o, address, s, checked);
    [r.path] + if s'.flips == [] then [] else Visits(p, o, address, checked, s')
  }

  lemma VisitsUnfold(p: Program, o: Oracle, address: nat -> nat, checked: bool, s: SearchResult)
    requires Reliable(o) && Reachable(p, Dirs(s.flips))
    ensures var s' := Move(o, address, RunFrom(p, address, s), checked);
      && Reachable(p, Dirs(s'.flips))
      && Visits(p, o, address, checked, s) ==
           [RunFrom(p, address, s).path] + if s'.flips == [] then [] else Visits(p, o, address, checked, s')
  {
    MovesOn(p, o, address, s, checked);
  }

  /** Does some check on the way find an error possible? */
  ghost predicate Finds(p: Program, o: Oracle, address: nat -> nat, s: SearchResult)
    requires Reliable(o) && Reachable(p, Dirs(s.flips))
    decreases TodoSet(p, s.flips)
  {
    var r := RunFrom(p, address, s);
    var s' := Move(o, address, r, true);
    MovesOn(p, o, address, s, true);
    !CheckAnswer(o, r).Unsat? || (s'.flips != [] && Finds(p, o, address, s'))
  }

  const START := SearchResult([], 0, 0)

  lemma StartReachable(p: Program)
    ensures Reachable(p, Dirs(START.flips))
  {
    ReachableEmpty(p);
    assert Dirs([]) == [];
  }

  lemma StartTodo(d: Path)
    ensures Todo(START.flips, d)
  {
    assert Dirs(START.flips) == [] <= d;
  }

  /** Only leaves to do are visited. */
  lemma {:induction false} VisitsAreTodo(p: Program, o: Oracle, address: nat -> nat, checked: bool, s: SearchResult,
                                         d: Path)
    requires Reliable(o) && Reachable(p, Dirs(s.flips)) && d in Visits(p, o, address, checked, s)
    ensures Complete(p, d) && Todo(s.flips, d)
    decreases TodoSet(p, s.flips)
  {
    var r := RunFrom(p, address, s);
    var s' := Move(o, address, r, checked);
    MovesOn(p, o, address, s, checked);
    EndDirs(p, s.flips);
    if d != r.path {
      VisitsAreTodo(p, o, address, checked, s', d);
      ReachableComplete(p, r.path);
      MoveNarrows(p, o, address, r, checked, d);
    }
    TodoAtEnd(p, s.flips, d);
  }

  /** No leaf is visited twice. */
  lemma {:induction false} VisitsOnce(p: Program, o: Oracle, address: nat -> nat, checked: bool, s: SearchResult)
    requires Reliable(o) && Reachable(p, Dirs(s.flips))
    ensures NoDuplicates(Visits(p, o, address, checked, s))
    decreases TodoSet(p, s.flips)
  {
    var r := RunFrom(p, address, s);
    var s' := Move(o, address, r, checked);
    MovesOn(p, o, address, s, checked);
    if s'.flips != [] {
      var rest := Visits(p, o, address, checked, s');
      VisitsOnce(p, o, address, checked, s');
      EndDirs(p, s.flips);
      ReachableComplete(p, r.path);
      MoveNarrows(p, o, address, r, checked, r.path);
      TodoAtEnd(p, s.flips, r.path);
      if r.path in rest {
        VisitsAreTodo(p, o, address, checked, s', r.path);
      }
      assert r.path !in rest;
    }
  }
}
