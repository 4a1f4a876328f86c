/** What a backtracking exploration visits when the solver decides every query: a set of leaves
    that depends on the program alone. */
module DecidingSolver {
  import opened Formulas
  import opened DecisionTrees
  import opened PathConditions
  import opened BacktrackChecker
  import opened SearchOutcome
  import opened ExplorationLog
  import opened ExplorationLoss

  /** A core is reported exactly if there is a conflict and guards are needed for it.  Which core
      is left open. */
  ghost predicate Deciding(o: Oracle)
  {
    && Reliable(o)
    && forall n, asserted, gs :: Decides(o, n, asserted, gs)
  }

  ghost predicate Decides(o: Oracle, n: nat, asserted: seq<Formula>, gs: seq<Formula>)
  {
    o.assume_(n, asserted, gs).Core? <==> Consistent(asserted, []) && !Consistent(asserted, gs)
  }

  // ---- One move ------------------------------------------------------------------------------

  /** What is asserted while the search at the end of path `e` goes on: without the errors if a
      check refutes the path before it gets to them. */
  ghost function SearchedAt(p: Program, e: Path, checked: bool): seq<Formula>
  {
    var a := Assertions(p, e);
    if checked && Errors(p, e, []) != [] && Consistent(a, []) && !Consistent(a, Guards(p, e)) then a
    else HeldAt(p, e, checked)
  }

  /** The search at the end of `e` finds the path refuted, but not by what is asserted alone, and
      refutes all its prefixes turned around at or after `i` as well. */
  ghost predicate SkipsFrom(p: Program, e: Path, i: nat, checked: bool)
    requires Complete(p, e)
  {
    var held := SearchedAt(p, e, checked);
    Consistent(held, []) && !SurvivesOn(p, e, i, held)
  }

  /** `d` takes "then" where `e` takes "else" for the first time. */
  ghost predicate Behind(e: Path, d: Path, i: nat)
  {
    i < |e| && !e[i] && e[..i] + [true] <= d
  }

  /** At the end of `e` the leaf `d` is lost. */
  ghost predicate Skips(p: Program, e: Path, d: Path, checked: bool)
  {
    Complete(p, e) && exists i: nat :: Behind(e, d, i) && SkipsFrom(p, e, i, checked)
  }

  lemma DecidingAnswers(o: Oracle, asserted: seq<Formula>, gs: seq<Formula>, flips: seq<Flip>)
    requires Deciding(o) && |gs| == |flips| && Consistent(asserted, [])
    ensures Answers(o, asserted, gs, flips)
  {
    forall hs, n | !Consistent(asserted, hs) ensures o.assume_(n, asserted, hs).Core? {
      assert Decides(o, n, asserted, hs);
    }
  }

  /** One search of a deciding solver keeps exactly what survives. */
  lemma DecidingSearch(p: Program, o: Oracle, address: nat -> nat, r: Ended, asserted: seq<Formula>, checks: nat,
                       d: Path, i: nat)
    requires Deciding(o) && Complete(p, r.path) && Dirs(r.flips) == r.path && ElseFirst(r.flips)
    requires Terms(r.guards) == Guards(p, r.path) && |r.guards| == |r.flips|
    requires i < |r.flips| && DivergesAt(r.flips, d, i) && Consistent(asserted, [])
    ensures Keeps(Search(o, address, asserted, r.guards, r.flips, checks, r.terms).flips, d) <==>
      SurvivesOn(p, r.path, i, asserted)
  {
    OneGuardPerDirection(p, r.path);
    DecidingAnswers(o, asserted, Guards(p, r.path), r.flips);
    if SurvivesOn(p, r.path, i, asserted) {
      SearchKeeps(p, o, address, r, asserted, checks, d, i);
    } else {
      SearchDrops(p, o, address, r, asserted, checks, d, i);
    }
  }

  /** Asserting the same things makes the same conflicts. */
  lemma SurvivesSame(p: Program, e: Path, i: nat, a: seq<Formula>, b: seq<Formula>)
    requires Complete(p, e)
    requires forall gs :: Consistent(a, gs) <==> Consistent(b, gs)
    ensures SurvivesOn(p, e, i, a) <==> SurvivesOn(p, e, i, b)
  {
    SurvivesWeaker(p, e, i, a, b);
    SurvivesWeaker(p, e, i, b, a);
  }

  /** The case that the check for errors refutes the path. */
  lemma CheckedMove(p: Program, o: Oracle, address: nat -> nat, s: SearchResult, d: Path, i: nat)
    requires Deciding(o) && Reachable(p, Dirs(s.flips)) && ElseFirst(s.flips)
    requires var r := RunFrom(p, address, s);
      i < |r.flips| && DivergesAt(r.flips, d, i) && Complete(p, r.path) && RefutedByCheck(o, r)
    ensures var r := RunFrom(p, address, s);
      Keeps(Move(o, address, r, true).flips, d) <==> !SkipsFrom(p, r.path, i, true)
  {
    var r := RunFrom(p, address, s);
    EndDirs(p, s.flips);
    EndElseFirst(s.flips, |r.path|);
    assert Decides(o, r.checks, r.assertions, Terms(r.guards));
    assert SearchedAt(p, r.path, true) == r.assertions;
    DecidingSearch(p, o, address, r, r.assertions, r.checks, d, i);
  }

  /** The case that the search starts with everything asserted. */
  lemma SearchingMove(p: Program, o: Oracle, address: nat -> nat, s: SearchResult, checked: bool, d: Path, i: nat)
    requires Deciding(o) && Reachable(p, Dirs(s.flips)) && ElseFirst(s.flips)
    requires var r := RunFrom(p, address, s);
      && i < |r.flips| && DivergesAt(r.flips, d, i) && Complete(p, r.path)
      && !(checked && RefutedByCheck(o, r))
      && Conflict(o, ChecksBefore(r, checked), SolverContents(r, checked), r.guards)
    ensures var r := RunFrom(p, address, s);
      Keeps(Move(o, address, r, checked).flips, d) <==> !SkipsFrom(p, r.path, i, checked)
  {
    var r := RunFrom(p, address, s);
    EndDirs(p, s.flips);
    EndElseFirst(s.flips, |r.path|);
    var asserted, held := SolverContents(r, checked), HeldAt(p, r.path, checked);
    forall gs ensures Consistent(asserted, gs) <==> Consistent(held, gs) {
      AssertedIsHeld(p, address, s, checked, gs);
    }
    assert Decides(o, ChecksBefore(r, checked), asserted, Terms(r.guards));
    NotRefutedByCheck(p, o, address, s, checked);
    DecidingSearch(p, o, address, r, asserted, ChecksBefore(r, checked), d, i);
    SurvivesSame(p, r.path, i, asserted, held);
  }

  lemma NotRefutedByCheck(p: Program, o: Oracle, address: nat -> nat, s: SearchResult, checked: bool)
    requires Deciding(o) && Reachable(p, Dirs(s.flips))
    requires RunFrom(p, address, s).guards != [] && !(checked && RefutedByCheck(o, RunFrom(p, address, s)))
    ensures SearchedAt(p, RunFrom(p, address, s).path, checked) == HeldAt(p, RunFrom(p, address, s).path, checked)
  {
    var r := RunFrom(p, address, s);
    assert Decides(o, r.checks, r.assertions, Terms(r.guards));
  }

  /** The case without a conflict: nothing is skipped. */
  lemma PassingMove(p: Program, o: Oracle, address: nat -> nat, s: SearchResult, checked: bool, d: Path, i: nat)
    requires Deciding(o) && Reachable(p, Dirs(s.flips)) && ElseFirst(s.flips)
    requires var r := RunFrom(p, address, s);
      && i < |r.flips| && DivergesAt(r.flips, d, i) && Complete(p, r.path)
      && !(checked && RefutedByCheck(o, r))
      && !Conflict(o, ChecksBefore(r, checked), SolverContents(r, checked), r.guards)
    ensures var r := RunFrom(p, address, s);
      Keeps(Move(o, address, r, checked).flips, d) && !SkipsFrom(p, r.path, i, checked)
  {
    var r := RunFrom(p, address, s);
    var asserted, held := SolverContents(r, checked), HeldAt(p, r.path, checked);
    assert Decides(o, ChecksBefore(r, checked), asserted, Terms(r.guards));
    NotRefutedByCheck(p, o, address, s, checked);
    AssertedIsHeld(p, address, s, checked, []);
    AssertedIsHeld(p, address, s, checked, Terms(r.guards));
    assert Pending(r.flips, d);
    NextFlipsKeepsPending(r.flips, d);
  }

  lemma MoveExact(p: Program, o: Oracle, address: nat -> nat, s: SearchResult, checked: bool, d: Path, i: nat)
    requires Deciding(o) && Reachable(p, Dirs(s.flips)) && ElseFirst(s.flips)
    requires var r := RunFrom(p, address, s);
      i < |r.flips| && DivergesAt(r.flips, d, i) && Complete(p, r.path)
    ensures var r := RunFrom(p, address, s);
      Keeps(Move(o, address, r, checked).flips, d) <==> !SkipsFrom(p, r.path, i, checked)
  {
    var r := RunFrom(p, address, s);
    if checked && RefutedByCheck(o, r) {
      CheckedMove(p, o, address, s, d, i);
    } else if Conflict(o, ChecksBefore(r, checked), SolverContents(r, checked), r.guards) {
      SearchingMove(p, o, address, s, checked, d, i);
    } else {
      PassingMove(p, o, address, s, checked, d, i);
    }
  }

  // ---- Whole explorations ------------------------------------------------------------------------

  lemma BehindParts(e: Path, d: Path, i: nat)
    requires Behind(e, d, i)
    ensures i < |d| && d[i] && d[..i] == e[..i]
    ensures forall j :: 0 <= j < i ==> d[j] == e[j]
  {
    assert d[..i] == (e[..i] + [true])[..i] && d[i] == (e[..i] + [true])[i];
    forall j | 0 <= j < i ensures d[j] == e[j] {
      assert d[..i][j] == e[..i][j];
    }
  }

  lemma OnePart(e: Path, d: Path, i: nat, j: nat)
    requires Behind(e, d, i) && Behind(e, d, j)
    ensures i == j
  {
    BehindParts(e, d, i);
    BehindParts(e, d, j);
  }

  /** A leaf that is to do is visited exactly if no visited path skips it. */
  lemma {:induction false} VisitedUnlessSkipped(p: Program, o: Oracle, address: nat -> nat, checked: bool,
                                                s: SearchResult, d: Path)
    requires Deciding(o) && Reachable(p, Dirs(s.flips)) && ElseFirst(s.flips)
    requires Complete(p, d) && Todo(s.flips, d)
    ensures ListedUnlessSkipped(p, Visits(p, o, address, checked, s), d, checked)
    decreases TodoSet(p, s.flips)
  {
    var r := RunFrom(p, address, s);
    var s' := Move(o, address, r, checked);
    MovesOn(p, o, address, s, checked);
    VisitsUnfold(p, o, address, checked, s);
    if d == r.path {
      FirstIsNotSkipped(p, o, address, checked, s);
    } else {
      TodoAtEnd(p, s.flips, d);
      var i := PendingIsTurned(p, address, s, d);
      MoveExact(p, o, address, s, checked, d, i);
      var rest := if s'.flips == [] then [] else Visits(p, o, address, checked, s');
      if SkipsFrom(p, r.path, i, checked) {
        NotVisited(p, o, address, checked, s', d);
        FirstSkips(p, r.path, rest, d, i, checked);
      } else {
        EndElseFirst(s.flips, |r.path|);
        MoveElseFirst(o, address, r, checked);
        VisitedUnlessSkipped(p, o, address, checked, s', d);
        PartDecides(p, r.path, d, i, checked);
        FirstPasses(p, r.path, rest, d, checked);
      }
    }
  }

  ghost predicate ListedUnlessSkipped(p: Program, visits: seq<Path>, d: Path, checked: bool)
  {
    d in visits <==> forall e :: e in visits ==> !Skips(p, e, d, checked)
  }

  lemma FirstSkips(p: Program, first: Path, rest: seq<Path>, d: Path, i: nat, checked: bool)
    requires d != first && d !in rest && Complete(p, first) && Behind(first, d, i) && SkipsFrom(p, first, i, checked)
    ensures ListedUnlessSkipped(p, [first] + rest, d, checked)
  {
    assert Skips(p, first, d, checked) && ([first] + rest)[0] == first;
  }

  lemma FirstPasses(p: Program, first: Path, rest: seq<Path>, d: Path, checked: bool)
    requires d != first && !Skips(p, first, d, checked) && ListedUnlessSkipped(p, rest, d, checked)
    ensures ListedUnlessSkipped(p, [first] + rest, d, checked)
  {
    assert forall e :: e in [first] + rest <==> e == first || e in rest;
  }

  lemma PartDecides(p: Program, e: Path, d: Path, i: nat, checked: bool)
    requires Complete(p, e) && Behind(e, d, i) && !SkipsFrom(p, e, i, checked)
    ensures !Skips(p, e, d, checked)
  {
    if j: nat :| Behind(e, d, j) && SkipsFrom(p, e, j, checked) {
      OnePart(e, d, i, j);
    }
  }

  /** What comes later does not skip the path followed now. */
  lemma FirstIsNotSkipped(p: Program, o: Oracle, address: nat -> nat, checked: bool, s: SearchResult)
    requires Reliable(o) && Reachable(p, Dirs(s.flips)) && ElseFirst(s.flips)
    ensures forall e :: e in Visits(p, o, address, checked, s) ==> !Skips(p, e, RunFrom(p, address, s).path, checked)
  {
    var d := RunFrom(p, address, s).path;
    forall e | e in Visits(p, o, address, checked, s) ensures !Skips(p, e, d, checked) {
      VisitsAreTodo(p, o, address, checked, s, e);
      if i: nat :| Behind(e, d, i) {
        ElseComesFirst(p, s.flips, e, d, i);
      }
    }
  }

  // ---- Without the solver ----------------------------------------------------------------------

  /** The leaves that a depth-first search in the order of the flips comes to before `d`. */
  ghost function Earlier(p: Program, d: Path): set<Path>
  {
    set e | e in Leaves(p) && exists i: nat :: Behind(e, d, i)
  }

  lemma BehindTransitive(c: Path, e: Path, d: Path, j: nat, i: nat)
    requires Behind(c, e, j) && Behind(e, d, i)
    ensures Behind(c, d, if j < i then j else i)
  {
    var k := if j < i then j else i;
    BehindParts(c, e, j);
    BehindParts(e, d, i);
    forall m | 0 <= m < k ensures d[m] == c[m] {
      assert d[m] == e[m] == c[m];
    }
    assert d[..k + 1] == c[..k] + [true];
  }

  lemma NotBehindItself(e: Path, i: nat)
    ensures !Behind(e, e, i)
  {
    if Behind(e, e, i) {
      BehindParts(e, e, i);
    }
  }

  lemma EarlierShrinks(p: Program, e: Path, d: Path)
    requires e in Earlier(p, d)
    ensures Earlier(p, e) < Earlier(p, d)
  {
    var i: nat :| Behind(e, d, i);
    forall c | c in Earlier(p, e) ensures c in Earlier(p, d) {
      var j: nat :| Behind(c, e, j);
      BehindTransitive(c, e, d, j, i);
    }
    forall j: nat ensures !Behind(e, e, j) {
      NotBehindItself(e, j);
    }
    assert e !in Earlier(p, e);
  }

  /** `d` is a leaf that no leaf met earlier skips.  This speaks of the program alone. */
  ghost predicate Met(p: Program, d: Path, checked: bool)
    decreases Earlier(p, d)
  {
    && d in Leaves(p)
    && forall e :: e in Earlier(p, d) ==>
         (EarlierShrinks(p, e, d); Met(p, e, checked) ==> !Skips(p, e, d, checked))
  }

  lemma {:induction false} CompleteIsLeaf(p: Program, d: Path)
    ensures d in Leaves(p) <==> Complete(p, d)
  {
    LeavesAreComplete(p, d);
  }

  /** Main result: whatever cores a deciding solver reports and whatever the addresses are, the
      exploration visits exactly the leaves met. */
  lemma {:induction false} VisitsAreMet(p: Program, o: Oracle, address: nat -> nat, checked: bool, d: Path)
    requires Deciding(o)
    ensures Reachable(p, Dirs(START.flips))
    ensures d in Visits(p, o, address, checked, START) <==> Met(p, d, checked)
    decreases Earlier(p, d)
  {
    StartReachable(p);
    StartTodo(d);
    CompleteIsLeaf(p, d);
    var visits := Visits(p, o, address, checked, START);
    if d in visits {
      VisitsAreTodo(p, o, address, checked, START, d);
    }
    if Complete(p, d) {
      VisitedUnlessSkipped(p, o, address, checked, START, d);
      forall e | e in Earlier(p, d) ensures e in visits <==> Met(p, e, checked) {
        EarlierShrinks(p, e, d);
        VisitsAreMet(p, o, address, checked, e);
      }
      forall e | Skips(p, e, d, checked) ensures e in Earlier(p, d) {
        CompleteIsLeaf(p, e);
      }
    }
  }

  ghost predicate LosesNothing(p: Program, o: Oracle, address: nat -> nat, checked: bool)
    requires Reliable(o)
  {
    StartReachable(p);
    forall d :: Feasible(p, d) ==> d in Visits(p, o, address, checked, START)
  }

  ghost predicate MeetsBlindSpot(p: Program, checked: bool)
  {
    exists e, d :: Met(p, e, checked) && Feasible(p, d) && Skips(p, e, d, checked)
  }

  /** Main result: an exploration with a deciding solver visits all feasible leaves if and only
      if no leaf that is met skips one. */
  lemma DecidingLosesExactly(p: Program, o: Oracle, address: nat -> nat, checked: bool)
    requires Deciding(o)
    ensures LosesNothing(p, o, address, checked) <==> !MeetsBlindSpot(p, checked)
  {
    StartReachable(p);
    var visits := Visits(p, o, address, checked, START);
    forall e ensures e in visits <==> Met(p, e, checked) {
      VisitsAreMet(p, o, address, checked, e);
    }
    forall d | Feasible(p, d) ensures d in visits <==> forall e :: e in visits ==> !Skips(p, e, d, checked) {
      StartTodo(d);
      VisitedUnlessSkipped(p, o, address, checked, START, d);
    }
  }
}
