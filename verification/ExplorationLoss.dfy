/** Exactly which programs a backtracking exploration can lose a feasible leaf of. */
module ExplorationLoss {
  import opened Formulas
  import opened DecisionTrees
  import opened PathConditions
  import opened BacktrackChecker
  import opened SearchOutcome
  import opened ExplorationLog

  /** What the checker asserts at the end of path `e`: its assertions, and its errors if
      they are checked. */
  function HeldAt(p: Program, e: Path, checked: bool): seq<Formula>
  {
    var errors := Errors(p, e, []);
    Assertions(p, e) + if checked && errors != [] then [Disjunction(errors)] else []
  }

  /** The guards of path `e` are consistent with what is asserted, as they are or with one of
      its "else" decisions at or after `i` turned around. */
  ghost predicate SurvivesOn(p: Program, e: Path, i: nat, asserted: seq<Formula>)
    requires Complete(p, e)
  {
    OneGuardPerDirection(p, e);
    || Consistent(asserted, Guards(p, e))
    || exists j: nat :: i <= j && ConsistentTurned(asserted, Guards(p, e), e, j)
  }

  ghost predicate ConsistentTurned(asserted: seq<Formula>, gs: seq<Formula>, e: Path, j: nat)
    requires |gs| == |e|
  {
    j < |e| && !e[j] && Consistent(asserted, FlippedAt(gs, j))
  }

  /** The terms held at the end of path `e` refute the path and everything that is reached by
      turning one of its "else" decisions at or after `i`, although `d`, which is reached by
      turning decision `i`, has a feasible path condition. */
  ghost predicate BlindSpot(p: Program, e: Path, i: nat, d: Path, checked: bool)
  {
    && Complete(p, e) && i < |e| && !e[i] && !SurvivesOn(p, e, i, HeldAt(p, e, checked))
    && Feasible(p, d) && e[..i] + [true] <= d
  }

  ghost predicate HasBlindSpot(p: Program, checked: bool)
  {
    exists e, i: nat, d :: BlindSpot(p, e, i, d, checked)
  }

  /** Every feasible leaf is visited, whatever a reliable solver answers. */
  ghost predicate NeverLoses(p: Program, address: nat -> nat, checked: bool)
  {
    StartReachable(p);
    forall o, d :: Reliable(o) && Feasible(p, d) ==> d in Visits(p, o, address, checked, START)
  }

  // ---- Without blind spots nothing is lost ----------------------------------------------------

  /** Asserting the assertions twice makes no difference. */
  lemma HeldTwice(a: seq<Formula>, b: seq<Formula>, gs: seq<Formula>)
    ensures Consistent(a + b + a, gs) <==> Consistent(a + b, gs)
    ensures Consistent(a + b, gs) ==> Consistent(a, gs)
  {
    forall x: Input
      ensures AllHold(a + b + a, x) <==> AllHold(a + b, x)
      ensures AllHold(a + b, x) ==> AllHold(a, x)
    {
      AllHoldAppend(a + b, a, x);
      AllHoldAppend(a, b, x);
    }
  }

  /** The search sees what is held at the end of the path. */
  lemma AssertedIsHeld(p: Program, address: nat -> nat, s: SearchResult, checked: bool, gs: seq<Formula>)
    requires Reachable(p, Dirs(s.flips))
    ensures var r := RunFrom(p, address, s);
      && (Consistent(SolverContents(r, checked), gs) <==> Consistent(HeldAt(p, r.path, checked), gs))
      && (Consistent(HeldAt(p, r.path, checked), gs) ==> Consistent(r.assertions, gs))
  {
    var r := RunFrom(p, address, s);
    if checked && r.errors != [] {
      HeldTwice(r.assertions, [Disjunction(r.errors)], gs);
    } else {
      assert HeldAt(p, r.path, checked) == r.assertions;
    }
  }

  lemma EndElseFirst(flips: seq<Flip>, n: nat)
    requires ElseFirst(flips) && |flips| <= n
    ensures ElseFirst(EndFlips(flips, n))
  {
    var r := EndFlips(flips, n);
    assert forall j :: 0 <= j < |flips| ==> r[j] == r[..|flips|][j];
  }

  lemma MoveElseFirst(o: Oracle, address: nat -> nat, r: Ended, checked: bool)
    requires Reliable(o) && |r.guards| == |r.flips| && ElseFirst(r.flips)
    ensures ElseFirst(Move(o, address, r, checked).flips)
  {
    NextFlipsTurns(r.flips);
    if NextFlips(r.flips) != [] {
      TurnedElseFirst(r.flips, |r.flips| - 1, NextFlips(r.flips), |NextFlips(r.flips)| - 1);
    }
    if checked && RefutedByCheck(o, r) {
      ElseFirstKept(o, address, r.assertions, r.guards, r.flips, r.checks, r.terms);
    } else if Conflict(o, ChecksBefore(r, checked), SolverContents(r, checked), r.guards) {
      ElseFirstKept(o, address, SolverContents(r, checked), r.guards, r.flips, ChecksBefore(r, checked), r.terms);
    }
  }

  /** Surviving is the same on paths and on flips that go "else" first. */
  lemma SurvivesOnFlips(p: Program, e: Path, flips: seq<Flip>, i: nat, asserted: seq<Formula>)
    requires Complete(p, e) && Dirs(flips) == e && ElseFirst(flips)
    ensures |Guards(p, e)| == |flips|
    ensures SurvivesOn(p, e, i, asserted) <==> Survives(asserted, Guards(p, e), flips, i)
  {
    OneGuardPerDirection(p, e);
    var gs := Guards(p, e);
    forall j: nat ensures ConsistentTurned(asserted, gs, e, j) <==> SurvivesAt(asserted, gs, flips, j) {
      assert j < |e| ==> (e[j] <==> flips[j].frozen);
    }
  }

  lemma SurvivesWeaker(p: Program, e: Path, i: nat, a: seq<Formula>, b: seq<Formula>)
    requires Complete(p, e)
    requires forall gs :: Consistent(a, gs) ==> Consistent(b, gs)
    ensures SurvivesOn(p, e, i, a) ==> SurvivesOn(p, e, i, b)
  {
    OneGuardPerDirection(p, e);
    var gs := Guards(p, e);
    if j: nat :| i <= j && ConsistentTurned(a, gs, e, j) {
      assert ConsistentTurned(b, gs, e, j);
    }
  }

  /** What survives at the end of a path is kept by moving on. */
  lemma MoveKeeps(p: Program, o: Oracle, address: nat -> nat, s: SearchResult, checked: bool, d: Path, i: nat)
    requires Reliable(o) && Reachable(p, Dirs(s.flips)) && ElseFirst(s.flips)
    requires var r := RunFrom(p, address, s);
      && i < |r.flips| && DivergesAt(r.flips, d, i) && Complete(p, r.path)
      && SurvivesOn(p, r.path, i, HeldAt(p, r.path, checked))
    ensures Keeps(Move(o, address, RunFrom(p, address, s), checked).flips, d)
  {
    var r := RunFrom(p, address, s);
    EndDirs(p, s.flips);
    EndElseFirst(s.flips, |r.path|);
    forall gs ensures Consistent(HeldAt(p, r.path, checked), gs) ==> Consistent(SolverContents(r, checked), gs)
              ensures Consistent(HeldAt(p, r.path, checked), gs) ==> Consistent(r.assertions, gs)
    {
      AssertedIsHeld(p, address, s, checked, gs);
    }
    if checked && RefutedByCheck(o, r) {
      SurvivesWeaker(p, r.path, i, HeldAt(p, r.path, checked), r.assertions);
      SearchKeeps(p, o, address, r, r.assertions, r.checks, d, i);
    } else if Conflict(o, ChecksBefore(r, checked), SolverContents(r, checked), r.guards) {
      SurvivesWeaker(p, r.path, i, HeldAt(p, r.path, checked), SolverContents(r, checked));
      SearchKeeps(p, o, address, r, SolverContents(r, checked), ChecksBefore(r, checked), d, i);
    } else {
      assert Pending(r.flips, d);
      NextFlipsKeepsPending(r.flips, d);
    }
  }

  lemma SearchKeeps(p: Program, o: Oracle, address: nat -> nat, r: Ended, asserted: seq<Formula>, checks: nat,
                    d: Path, i: nat)
    requires Reliable(o) && Complete(p, r.path) && Dirs(r.flips) == r.path && ElseFirst(r.flips)
    requires Terms(r.guards) == Guards(p, r.path) && |r.guards| == |r.flips|
    requires i < |r.flips| && DivergesAt(r.flips, d, i) && SurvivesOn(p, r.path, i, asserted)
    ensures Keeps(Search(o, address, asserted, r.guards, r.flips, checks, r.terms).flips, d)
  {
    SurvivesOnFlips(p, r.path, r.flips, i, asserted);
    SearchExact(o, address, asserted, r.guards, r.flips, checks, r.terms,
                Search(o, address, asserted, r.guards, r.flips, checks, r.terms).flips, d, i);
  }

  /** A leaf that is pending at the end of a path is reached by turning an "else". */
  lemma PendingIsTurned(p: Program, address: nat -> nat, s: SearchResult, d: Path) returns (i: nat)
    requires Reachable(p, Dirs(s.flips)) && ElseFirst(s.flips) && Pending(RunFrom(p, address, s).flips, d)
    ensures var r := RunFrom(p, address, s);
      && i < |r.flips| && DivergesAt(r.flips, d, i) && Complete(p, r.path) && !r.path[i] && r.path[..i] + [true] <= d
  {
    var r := RunFrom(p, address, s);
    EndDirs(p, s.flips);
    EndElseFirst(s.flips, |r.path|);
    i :| i < |r.flips| && DivergesAt(r.flips, d, i);
    DivergesToThen(r.flips, r.path, d, i);
  }

  lemma DivergesToThen(flips: seq<Flip>, path: Path, d: Path, i: nat)
    requires i < |flips| && DivergesAt(flips, d, i) && Dirs(flips) == path && ElseFirst(flips)
    ensures !path[i] && path[..i] + [true] <= d
  {
    assert path[i] == flips[i].direction;
    assert d[..i + 1] == d[..i] + [d[i]];
  }

  /** What is to do and feasible is visited, unless a blind spot hides it. */
  lemma {:induction false} NothingLost(p: Program, o: Oracle, address: nat -> nat, checked: bool, s: SearchResult,
                                       d: Path)
    requires Reliable(o) && Reachable(p, Dirs(s.flips)) && ElseFirst(s.flips)
    requires Feasible(p, d) && Todo(s.flips, d)
    requires forall e, i: nat :: !BlindSpot(p, e, i, d, checked)
    ensures d in Visits(p, o, address, checked, s)
    decreases TodoSet(p, s.flips)
  {
    var r := RunFrom(p, address, s);
    var s' := Move(o, address, r, checked);
    MovesOn(p, o, address, s, checked);
    TodoAtEnd(p, s.flips, d);
    if d != r.path {
      var i := PendingIsTurned(p, address, s, d);
      assert !BlindSpot(p, r.path, i, d, checked);
      MoveKeeps(p, o, address, s, checked, d, i);
      EndElseFirst(s.flips, |r.path|);
      MoveElseFirst(o, address, r, checked);
      NothingLost(p, o, address, checked, s', d);
    }
  }

  // ---- A blind spot can cost its leaf ---------------------------------------------------------

  /** The queries of a search at the end of path `e`. */
  ghost predicate AskedAt(gs: seq<Formula>, e: Path, hs: seq<Formula>)
  {
    hs == gs || exists j: nat :: TurnedAt(gs, e, hs, j)
  }

  ghost predicate TurnedAt(gs: seq<Formula>, e: Path, hs: seq<Formula>, j: nat)
  {
    j < |e| == |gs| && !e[j] && hs == FlippedAt(gs, j)
  }

  /** A reliable solver that reports conflicts only in the search at the end of path `e`. */
  ghost function Spoiler(e: Path, gs: seq<Formula>, asserted: seq<Formula>): (o: Oracle)
    ensures Reliable(o)
  {
    Oracle((n, fs) => Unknown,
           (n, held, hs) =>
             if hs != [] && held == asserted && AskedAt(gs, e, hs) && !Consistent(held, hs) then Core(|hs| - 1)
             else NoCore)
  }

  function Size(f: Formula): nat
  {
    match f
    case Atom(_) => 0
    case Not(g) => 1 + Size(g)
    case And(g, h) => 1 + Size(g) + Size(h)
    case Or(g, h) => 1 + Size(g) + Size(h)
  }

  lemma NotItsNegation(f: Formula)
    ensures f != Not(f) && f != Not(Not(f))
  {
    assert Size(Not(Not(f))) > Size(Not(f)) > Size(f);
  }

  lemma TurnsElsewhere(gs: seq<Formula>, hs: seq<Formula>, i: nat, j: nat)
    requires i < |gs| && i < |hs| && hs[..i] == gs[..i] && hs[i] != gs[i]
    requires j < |gs| && (i == j ==> hs[j] != Not(gs[j]))
    ensures hs != FlippedAt(gs, j)
  {
    var ts := FlippedAt(gs, j);
    if i < j {
      assert ts[i] == gs[i];
    } else if j < i {
      NotItsNegation(gs[j]);
      assert ts[j] == Not(gs[j]) && hs[j] == hs[..i][j] == gs[..i][j] == gs[j];
    }
  }

  /** No other path asks any of these queries. */
  lemma OthersAskOtherwise(p: Program, e: Path, d: Path)
    requires Complete(p, e) && Complete(p, d) && d != e
    ensures !AskedAt(Guards(p, e), e, Guards(p, d))
  {
    var i := PathsPart(p, d, e);
    var f := GuardsPart(p, d, e, i);
    NotItsNegation(f);
    var gs, hs := Guards(p, e), Guards(p, d);
    forall j: nat | j < |e| && !e[j] ensures !TurnedAt(gs, e, hs, j) {
      TurnsElsewhere(gs, hs, i, j);
    }
  }

  /** The asserted terms at the end of `e`, as the search sees them. */
  function SeenAt(p: Program, e: Path, checked: bool): seq<Formula>
  {
    var a, errors := Assertions(p, e), Errors(p, e, []);
    if checked && errors != [] then a + [Disjunction(errors)] + a else a
  }

  /** Before it comes to the end of `e`, the spoiled exploration goes on in depth-first
      order. */
  lemma SpoilerGoesOn(p: Program, address: nat -> nat, checked: bool, s: SearchResult, e: Path)
    requires Reachable(p, Dirs(s.flips)) && Complete(p, e)
    requires RunFrom(p, address, s).path != e
    ensures Move(Spoiler(e, Guards(p, e), SeenAt(p, e, checked)), address, RunFrom(p, address, s), checked).flips ==
      NextFlips(RunFrom(p, address, s).flips)
  {
    var r := RunFrom(p, address, s);
    EndDirs(p, s.flips);
    OthersAskOtherwise(p, e, r.path);
  }

  /** A path that takes "else" where a frozen flip takes "then" is done. */
  lemma ElseIsDone(flips: seq<Flip>, e: Path, i: nat)
    requires ElseFirst(flips) && i < |e| && !e[i]
    requires i < |flips| && flips[i].direction && Dirs(flips)[..i] == e[..i]
    ensures !Todo(flips, e)
  {
    assert e[i] != Dirs(flips)[i];
    forall m: nat | m < |flips| && m < |e| ensures !DivergesAt(flips, e, m) {
      if m < i {
        assert e[m] == e[..i][m] == Dirs(flips)[..i][m] == Dirs(flips)[m];
      } else if i < m {
        assert e[..m][i] != Dirs(flips)[..m][i];
      }
    }
  }

  /** On the path followed, "then" is taken only where a flip says so. */
  lemma ThenIsRecorded(p: Program, flips: seq<Flip>, i: nat)
    requires Reachable(p, Dirs(flips))
    ensures var d := Follow(p, Dirs(flips));
      i < |d| && d[i] ==> i < |flips| && flips[i].direction && Dirs(flips)[..i] == d[..i]
  {
    FollowCompletes(p, Dirs(flips));
  }

  /** Among leaves to do, the one with "else" where they part comes first. */
  lemma ElseComesFirst(p: Program, flips: seq<Flip>, e: Path, d: Path, i: nat)
    requires Reachable(p, Dirs(flips)) && ElseFirst(flips) && Todo(flips, e)
    requires i < |e| && !e[i] && e[..i] + [true] <= d
    ensures d != Follow(p, Dirs(flips))
  {
    assert d[..i] == (e[..i] + [true])[..i] && d[i] == (e[..i] + [true])[i];
    ThenIsRecorded(p, flips, i);
    if i < |flips| && flips[i].direction && Dirs(flips)[..i] == e[..i] {
      ElseIsDone(flips, e, i);
    }
  }

  /** The search at the end of `e` answers all its queries. */
  lemma SpoilerAnswers(p: Program, e: Path, flips: seq<Flip>, asserted: seq<Formula>)
    requires Complete(p, e) && Dirs(flips) == e && ElseFirst(flips) && flips != []
    ensures |Guards(p, e)| == |flips|
    ensures Answers(Spoiler(e, Guards(p, e), asserted), asserted, Guards(p, e), flips)
  {
    OneGuardPerDirection(p, e);
    var gs := Guards(p, e);
    forall j: nat | j < |flips| && !flips[j].frozen
      ensures Reports(Spoiler(e, gs, asserted), asserted, FlippedAt(gs, j))
    {
      assert !e[j] && TurnedAt(gs, e, FlippedAt(gs, j), j);
    }
  }

  /** At the end of `e` the leaf behind the blind spot is dropped. */
  lemma SpoilerDrops(p: Program, address: nat -> nat, checked: bool, s: SearchResult, e: Path, i: nat, d: Path)
    requires Reachable(p, Dirs(s.flips)) && ElseFirst(s.flips)
    requires BlindSpot(p, e, i, d, checked) && RunFrom(p, address, s).path == e
    ensures var o := Spoiler(e, Guards(p, e), SeenAt(p, e, checked));
      !Keeps(Move(o, address, RunFrom(p, address, s), checked).flips, d)
  {
    var r := RunFrom(p, address, s);
    var asserted := SeenAt(p, e, checked);
    EndDirs(p, s.flips);
    EndElseFirst(s.flips, |e|);
    SpoilerAnswers(p, e, r.flips, asserted);
    TurnedDiverges(r.flips, e, i, d);
    assert asserted == SolverContents(r, checked);
    forall gs ensures Consistent(asserted, gs) ==> Consistent(HeldAt(p, e, checked), gs) {
      AssertedIsHeld(p, address, s, checked, gs);
    }
    SurvivesWeaker(p, e, i, asserted, HeldAt(p, e, checked));
    var o := Spoiler(e, Guards(p, e), asserted);
    SearchDrops(p, o, address, r, asserted, ChecksBefore(r, checked), d, i);
    SpoilerWaits(p, address, s, e, checked);
  }

  /** A search in which nothing survives drops the leaf, if the solver answers. */
  lemma SearchDrops(p: Program, o: Oracle, address: nat -> nat, r: Ended, asserted: seq<Formula>, checks: nat,
                    d: Path, i: nat)
    requires Reliable(o) && Complete(p, r.path) && Dirs(r.flips) == r.path && ElseFirst(r.flips)
    requires Terms(r.guards) == Guards(p, r.path) && |r.guards| == |r.flips|
    requires i < |r.flips| && DivergesAt(r.flips, d, i) && !SurvivesOn(p, r.path, i, asserted)
    requires Answers(o, asserted, Guards(p, r.path), r.flips)
    ensures Conflict(o, checks, asserted, r.guards)
    ensures !Keeps(Search(o, address, asserted, r.guards, r.flips, checks, r.terms).flips, d)
  {
    SurvivesOnFlips(p, r.path, r.flips, i, asserted);
    SearchExact(o, address, asserted, r.guards, r.flips, checks, r.terms,
                Search(o, address, asserted, r.guards, r.flips, checks, r.terms).flips, d, i);
  }

  /** The spoiler lets the check for errors pass. */
  lemma SpoilerWaits(p: Program, address: nat -> nat, s: SearchResult, e: Path, checked: bool)
    requires Reachable(p, Dirs(s.flips)) && RunFrom(p, address, s).path == e
    ensures checked ==> !RefutedByCheck(Spoiler(e, Guards(p, e), SeenAt(p, e, checked)), RunFrom(p, address, s))
  {
    var r := RunFrom(p, address, s);
    if checked && r.errors != [] {
      assert |r.assertions| < |SeenAt(p, e, checked)|;
    }
  }

  lemma TurnedDiverges(flips: seq<Flip>, e: Path, i: nat, d: Path)
    requires Dirs(flips) == e && ElseFirst(flips) && i < |e| && !e[i] && e[..i] + [true] <= d
    ensures DivergesAt(flips, d, i)
  {
    assert d[..i] == (e[..i] + [true])[..i] && d[i] == (e[..i] + [true])[i];
    assert !flips[i].frozen;
  }

  lemma {:induction false} SpoilerLoses(p: Program, address: nat -> nat, checked: bool, s: SearchResult,
                                        e: Path, i: nat, d: Path)
    requires Reachable(p, Dirs(s.flips)) && ElseFirst(s.flips) && Todo(s.flips, e) && Todo(s.flips, d)
    requires BlindSpot(p, e, i, d, checked)
    ensures d !in Visits(p, Spoiler(e, Guards(p, e), SeenAt(p, e, checked)), address, checked, s)
    decreases TodoSet(p, s.flips)
  {
    var o := Spoiler(e, Guards(p, e), SeenAt(p, e, checked));
    var r := RunFrom(p, address, s);
    var s' := Move(o, address, r, checked);
    MovesOn(p, o, address, s, checked);
    ElseComesFirst(p, s.flips, e, d, i);
    EndElseFirst(s.flips, |r.path|);
    MoveElseFirst(o, address, r, checked);
    if r.path == e {
      SpoilerDrops(p, address, checked, s, e, i, d);
      NotVisited(p, o, address, checked, s', d);
    } else {
      SpoilerGoesOn(p, address, checked, s, e);
      TodoAtEnd(p, s.flips, e);
      TodoAtEnd(p, s.flips, d);
      NextFlipsKeepsPending(r.flips, e);
      NextFlipsKeepsPending(r.flips, d);
      SpoilerLoses(p, address, checked, s', e, i, d);
    }
  }

  lemma NotVisited(p: Program, o: Oracle, address: nat -> nat, checked: bool, s: SearchResult, d: Path)
    requires Reliable(o) && Reachable(p, Dirs(s.flips)) && !Keeps(s.flips, d)
    ensures s.flips != [] ==> d !in Visits(p, o, address, checked, s)
  {
    if s.flips != [] && d in Visits(p, o, address, checked, s) {
      VisitsAreTodo(p, o, address, checked, s, d);
    }
  }

  /** Main result: an exploration, with or without a check after every path, visits every
      feasible leaf under every reliable solver if and only if the program has no blind
      spot. */
  lemma LosesExactly(p: Program, address: nat -> nat, checked: bool)
    ensures NeverLoses(p, address, checked) <==> !HasBlindSpot(p, checked)
  {
    StartReachable(p);
    if !HasBlindSpot(p, checked) {
      forall o, d | Reliable(o) && Feasible(p, d) ensures d in Visits(p, o, address, checked, START) {
        StartTodo(d);
        NothingLost(p, o, address, checked, START, d);
      }
    }
    if HasBlindSpot(p, checked) {
      var e, i: nat, d :| BlindSpot(p, e, i, d, checked);
      StartTodo(d);
      StartTodo(e);
      SpoilerLoses(p, address, checked, START, e, i, d);
      assert Reliable(Spoiler(e, Guards(p, e), SeenAt(p, e, checked)));
    }
  }
}
