/** Whole explorations with the pruning checker: `do { run } while (find_next_path())`. */
module PrunedExploration {
  import opened Formulas
  import opened DecisionTrees
  import opened SequentialChecker
  import opened Sorting

  /** Nothing feasible below `flips0` is dropped by going on to `flips`, and nothing
      is added. */
  ghost predicate Narrowed(p: Program, flips0: seq<Flip>, flips: seq<Flip>)
  {
    && (forall d :: Feasible(p, d) && Dirs(flips0) <= d ==> Todo(flips, d))
    && (forall d :: Pending(flips, d) ==> Todo(flips0, d))
    && (forall d :: Pending(flips0, d) ==> Pending(flips, d))
  }

  /** No input follows the decisions `ds` in `p`. */
  ghost predicate DeadEnd(p: Program, ds: Path)
  {
    forall es: Path, x: Input :: !PathHolds(p, ds + es, x)
  }

  /** What is known in the middle of a path: `done` leads to `cur`; until the checker
      gives up on the path, the decisions and terms recorded are those met so far. */
  ghost predicate OnPath(p: Program, flips0: seq<Flip>, s: Snapshot, done: Path, cur: Program)
  {
    && flips0 <= s.flips && s.flipIndex <= |s.flips|
    && LeadsTo(p, done, cur)
    && Narrowed(p, flips0, s.flips)
    && (if s.feasible then
          && (s.flipIndex < |s.flips| ==> s.flips == flips0)
          && done == Dirs(s.flips)[..s.flipIndex]
          && Reachable(cur, Dirs(s.flips)[s.flipIndex..])
          && Collected(p, done, s.guards, s.errors, cur)
        else
          && Dirs(s.flips) <= done && s.flipIndex == |s.flips|
          && DeadEnd(p, Dirs(s.flips)) && Reachable(p, Dirs(s.flips))
          && forall x: Input :: !AllHold(s.guards, x))
  }

  lemma NarrowedByBranch(p: Program, flips0: seq<Flip>, flips: seq<Flip>, f: Flip)
    requires Narrowed(p, flips0, flips) && flips0 <= flips
    requires Reachable(p, Dirs(flips) + [f.direction])
    requires f.frozen ==> DeadEnd(p, Dirs(flips) + [!f.direction])
    ensures Narrowed(p, flips0, flips + [f])
  {
    var r := flips + [f];
    var ds := Dirs(flips);
    assert Dirs(r) == ds + [f.direction];
    assert Dirs(flips0) <= ds;
    forall d ensures Pending(r, d) <==> Pending(flips, d) || (!f.frozen && ds + [!f.direction] <= d) {
      ExtendPending(flips, f, d);
    }
    forall d | Feasible(p, d) && Dirs(flips0) <= d ensures Todo(r, d) {
      assert Todo(flips, d);
      if ds <= d && !Pending(flips, d) {
        LeafBeyond(p, ds, f.direction, d);
        assert d == ds + [d[|ds|]] + d[|ds| + 1..];
        var x: Input :| PathHolds(p, d, x);
        if d[|ds|] != f.direction {
          assert d[|ds|] == !f.direction;
          assert !f.frozen;
        }
      }
    }
  }

  /** A leaf cannot sit where a path goes on. */
  lemma {:induction false} LeafBeyond(p: Program, ds: Path, b: bool, d: Path)
    requires Reachable(p, ds + [b]) && Complete(p, d) && ds <= d
    ensures |ds| < |d|
  {
    match p
    case Leaf =>
    case Branch(Literal(c), _, _, _) => LeafBeyond(if c then p.thn else p.els, ds, b, d);
    case Branch(Term(_), _, _, _) =>
      if ds != [] {
        assert (ds + [b])[1..] == ds[1..] + [b];
        LeafBeyond(if ds[0] then p.thn else p.els, ds[1..], b, d[1..]);
      }
    case Assertion(_, next) => LeafBeyond(next, ds, b, d);
    case Error(_, next) => LeafBeyond(next, ds, b, d);
  }

  /** Guards that exclude one side of a branch make it a dead end. */
  lemma DeadSide(p: Program, done: Path, guards: seq<Formula>, errors: seq<Formula>, cur: Program, d: bool)
    requires Collected(p, done, guards, errors, cur) && cur.Branch? && cur.cond.Term?
    requires forall x: Input :: !(AllHold(guards, x) && Eval(Direct(cur.cond.formula, d), x))
    ensures DeadEnd(p, done + [d])
  {
    CollectGuard(p, done, guards, errors, cur, d);
    forall es: Path, x: Input ensures !PathHolds(p, done + [d] + es, x) {
      var g := Direct(cur.cond.formula, d);
      AllHoldAppend(guards, [g], x);
      assert AllHold([g], x) <==> Eval([g][0], x);
    }
  }

  /** One branch call keeps track of the path. */
  lemma BranchOnPath(p: Program, flips0: seq<Flip>, s: Snapshot, done: Path, cur: Program, d: bool, s': Snapshot)
    requires OnPath(p, flips0, s, done, cur) && cur.Branch?
    requires Branched([], cur.cond, cur.hint, s, d, s')
    ensures OnPath(p, flips0, s', if cur.cond.Term? then done + [d] else done, cur.Child(d))
  {
    if cur.cond.Literal? {
      PassLiteral(p, done, s.guards, s.errors, cur);
    } else {
      TakeBranch(p, done, cur, d);
      if s.feasible && s.flipIndex < |s.flips| {
        FollowFlip(p, flips0, s, done, cur, d, s');
      } else if s.feasible {
        assert done == Dirs(s.flips);
        if s'.feasible {
          NewDecision(p, flips0, s, cur, d, s');
        } else {
          GiveUp(p, flips0, s, done, cur, d, s');
        }
      }
    }
  }

  lemma FollowFlip(p: Program, flips0: seq<Flip>, s: Snapshot, done: Path, cur: Program, d: bool, s': Snapshot)
    requires OnPath(p, flips0, s, done, cur) && cur.Branch? && cur.cond.Term?
    requires s.feasible && s.flipIndex < |s.flips| && Branched([], cur.cond, cur.hint, s, d, s')
    requires LeadsTo(p, done + [d], cur.Child(d))
    ensures OnPath(p, flips0, s', done + [d], cur.Child(d))
  {
    CollectGuard(p, done, s.guards, s.errors, cur, d);
    assert Dirs(s.flips)[s.flipIndex..][1..] == Dirs(s.flips)[s'.flipIndex..];
    assert done + [d] == Dirs(s.flips)[..s'.flipIndex];
  }

  lemma GiveUp(p: Program, flips0: seq<Flip>, s: Snapshot, done: Path, cur: Program, d: bool, s': Snapshot)
    requires OnPath(p, flips0, s, done, cur) && cur.Branch? && cur.cond.Term?
    requires s.feasible && s.flipIndex == |s.flips| && !s'.feasible && Branched([], cur.cond, cur.hint, s, d, s')
    requires LeadsTo(p, done + [d], cur.Child(d)) && done == Dirs(s.flips)
    ensures OnPath(p, flips0, s', done + [d], cur.Child(d))
  {
    assert done + [] == done && Reachable(cur, []);
    DeadGuards(p, done, s.guards, s.errors, cur);
  }

  lemma DeadGuards(p: Program, done: Path, guards: seq<Formula>, errors: seq<Formula>, cur: Program)
    requires Collected(p, done, guards, errors, cur)
    requires forall x: Input :: !AllHold(guards, x)
    ensures DeadEnd(p, done)
  {
    forall es: Path, x: Input ensures !PathHolds(p, done + es, x) {
      assert !AllHold(guards, x);
      assert PathHolds(p, done + es, x) <==> AllHold(guards, x) && PathHolds(cur, es, x);
    }
  }

  lemma NewDecision(p: Program, flips0: seq<Flip>, s: Snapshot, cur: Program, d: bool, s': Snapshot)
    requires OnPath(p, flips0, s, Dirs(s.flips), cur) && cur.Branch? && cur.cond.Term?
    requires s.feasible && s'.feasible && s.flipIndex == |s.flips|
    requires Branched([], cur.cond, cur.hint, s, d, s')
    ensures OnPath(p, flips0, s', Dirs(s.flips) + [d], cur.Child(d))
  {
    var done := Dirs(s.flips);
    var f := Flip(d, d != cur.hint);
    TakeBranch(p, done, cur, d);
    CollectGuard(p, done, s.guards, s.errors, cur, d);
    ReachableEmpty(cur.Child(d));
    assert Reachable(p, done + [d] + []) && done + [d] + [] == done + [d];
    if f.frozen {
      DeadSide(p, done, s.guards, s.errors, cur, cur.hint);
    }
    NarrowedByBranch(p, flips0, s.flips, f);
    assert done + [d] == Dirs(s'.flips);
    assert Dirs(s'.flips)[s'.flipIndex..] == [];
  }

  lemma AssertionOnPath(p: Program, flips0: seq<Flip>, s: Snapshot, done: Path, cur: Program, s': Snapshot)
    requires OnPath(p, flips0, s, done, cur) && cur.Assertion?
    requires Asserted(cur.cond, s, s')
    ensures OnPath(p, flips0, s', done, cur.next)
  {
    PassStatement(p, done, cur);
    if s.feasible {
      CollectAssertion(p, done, s.guards, s.errors, cur, s'.guards);
    } else {
      forall x: Input ensures !AllHold(s'.guards, x) {
        assert forall i :: 0 <= i < |s.guards| ==> s.guards[i] == s'.guards[..|s.guards|][i];
        assert AllHold(s'.guards, x) ==> AllHold(s.guards, x);
      }
    }
  }

  lemma ErrorOnPath(p: Program, flips0: seq<Flip>, s: Snapshot, done: Path, cur: Program, s': Snapshot)
    requires OnPath(p, flips0, s, done, cur) && cur.Error?
    requires ErrorRecorded(cur.cond, s, s') && !(s.feasible && cur.cond == Literal(true))
    ensures OnPath(p, flips0, s', done, cur.next)
  {
    PassStatement(p, done, cur);
    if s.feasible {
      CollectError(p, done, s.guards, s.errors, cur, s'.errors);
    }
  }

  /** What one complete path leaves behind. */
  ghost predicate Finished(p: Program, flips0: seq<Flip>, s: Snapshot, leaf: Path)
  {
    && Complete(p, leaf) && Reachable(p, Dirs(s.flips))
    && Dirs(flips0) <= leaf && Dirs(s.flips) <= leaf
    && Narrowed(p, flips0, s.flips)
    && (forall d :: Feasible(p, d) && Dirs(s.flips) <= d ==> d == leaf)
    && (forall x: Input :: PathHolds(p, leaf, x) <==> AllHold(s.guards, x))
    && (forall x: Input :: PathHolds(p, leaf, x) ==> (ErrorOn(p, leaf, x) <==> AnyHolds(s.errors, x)))
  }

  lemma FinishPath(p: Program, flips0: seq<Flip>, s: Snapshot, leaf: Path)
    requires OnPath(p, flips0, s, leaf, Leaf)
    ensures Finished(p, flips0, s, leaf)
  {
    assert leaf + [] == leaf;
    assert Complete(p, leaf + []) && Reachable(p, leaf + []);
    if s.feasible {
      assert Dirs(s.flips)[s.flipIndex..] == [];
      assert leaf == Dirs(s.flips);
      forall d | Feasible(p, d) && Dirs(s.flips) <= d ensures d == leaf {
        assert d == leaf + d[|leaf|..];
        assert Complete(Leaf, d[|leaf|..]);
      }
      forall x: Input ensures PathHolds(p, leaf, x) <==> AllHold(s.guards, x)
                      ensures ErrorOn(p, leaf, x) <==> AnyHolds(s.errors, x)
      {
        assert PathHolds(p, leaf + [], x) <==> AllHold(s.guards, x) && PathHolds(Leaf, [], x);
        assert ErrorOn(p, leaf + [], x) <==> AnyHolds(s.errors, x) || ErrorOn(Leaf, [], x);
      }
    } else {
      var n := |s.flips|;
      forall d, x: Input | Dirs(s.flips) <= d ensures !PathHolds(p, d, x) {
        assert d == Dirs(s.flips) + d[n..];
      }
    }
  }

  /** Every input that follows the decisions `ds` runs into an error on the way. */
  ghost predicate AlwaysFails(p: Program, ds: Path)
  {
    Reachable(p, ds) && forall x: Input :: ErrorOn(p, ds, x)
  }

  method StepBranch(c: SequentialDfsChecker, cur: Program, ghost p: Program, ghost flips0: seq<Flip>, ghost leaf: Path)
    returns (next: Program, taken: Path)
    requires Reliable(c.oracle) && c.solver == [] && cur.Branch?
    requires OnPath(p, flips0, c.State(), leaf, cur)
    modifies c, c.dfs
    ensures c.solver == [] && next < cur
    ensures OnPath(p, flips0, c.State(), leaf + taken, next)
  {
    ghost var s := c.State();
    var d := c.Branch(cur.cond, cur.hint);
    BranchOnPath(p, flips0, s, leaf, cur, d, c.State());
    taken := if cur.cond.Term? then [d] else [];
    assert leaf + [] == leaf;
    next := cur.Child(d);
  }

  method StepAssertion(c: SequentialDfsChecker, cur: Program, ghost p: Program, ghost flips0: seq<Flip>,
                       ghost leaf: Path)
    requires c.solver == [] && cur.Assertion?
    requires OnPath(p, flips0, c.State(), leaf, cur)
    modifies c
    ensures c.solver == []
    ensures OnPath(p, flips0, c.State(), leaf, cur.next)
  {
    ghost var s := c.State();
    c.AddAssertion(cur.cond);
    AssertionOnPath(p, flips0, s, leaf, cur, c.State());
  }

  method StepError(c: SequentialDfsChecker, cur: Program, ghost p: Program, ghost flips0: seq<Flip>, ghost leaf: Path)
    returns (abort: bool)
    requires c.solver == [] && cur.Error?
    requires OnPath(p, flips0, c.State(), leaf, cur)
    modifies c
    ensures c.solver == []
    ensures abort ==> AlwaysFails(p, leaf)
    ensures !abort ==> OnPath(p, flips0, c.State(), leaf, cur.next)
  {
    ghost var s := c.State();
    abort := c.AddError(cur.cond);
    if abort {
      LiteralErrorFound(p, leaf, s.guards, s.errors, cur);
    } else {
      ErrorOnPath(p, flips0, s, leaf, cur, c.State());
    }
  }

  /** Execute `p` once, from its start, along the recorded decisions and beyond.
      Aborts only at an error that occurs for every input on this path. */
  method Run(c: SequentialDfsChecker, p: Program) returns (abort: bool, leaf: Path)
    requires Reliable(c.oracle)
    requires c.feasible && c.solver == [] && c.guards == [] && c.errors == [] && c.dfs.flipIndex == 0
    requires Reachable(p, Dirs(c.dfs.flips))
    modifies c, c.dfs
    ensures c.solver == []
    ensures abort ==> AlwaysFails(p, leaf)
    ensures !abort ==> Finished(p, old(c.dfs.flips), c.State(), leaf)
  {
    ghost var flips0 := c.dfs.flips;
    var cur := p;
    leaf := [];
    abort := false;
    StartCollecting(p);
    assert Dirs(flips0)[..0] == [] && Dirs(flips0)[0..] == Dirs(flips0);
    while !cur.Leaf?
      invariant c.solver == []
      invariant OnPath(p, flips0, c.State(), leaf, cur)
      decreases cur
    {
      match cur
      case Branch(_, _, _, _) =>
        var taken;
        cur, taken := StepBranch(c, cur, p, flips0, leaf);
        leaf := leaf + taken;
      case Assertion(_, next) =>
        StepAssertion(c, cur, p, flips0, leaf);
        cur := next;
      case Error(_, next) =>
        abort := StepError(c, cur, p, flips0, leaf);
        if abort {
          return;
        }
        cur := next;
    }
    FinishPath(p, flips0, c.State(), leaf);
  }

  lemma LiteralErrorFound(p: Program, done: Path, guards: seq<Formula>, errors: seq<Formula>, cur: Program)
    requires LeadsTo(p, done, cur) && Collected(p, done, guards, errors, cur)
    requires cur.Error? && cur.cond == Literal(true)
    ensures AlwaysFails(p, done)
  {
    assert done + [] == done;
    ReachableEmpty(cur);
    assert Reachable(p, done + []);
    forall x: Input ensures ErrorOn(p, done, x) {
      assert ErrorOn(p, done + [], x) <==> AnyHolds(errors, x) || ErrorOn(cur, [], x);
    }
  }

  /** Some input runs `p` along leaf `d` and hits an error on the way. */
  ghost predicate Buggy(p: Program, d: Path)
  {
    Complete(p, d) && exists x: Input :: PathHolds(p, d, x) && ErrorOn(p, d, x)
  }

  /** Between two paths: each feasible leaf is either logged or still to do, nothing
      logged is to do again, and no logged leaf hides an error. */
  ghost predicate Explored(p: Program, flips: seq<Flip>, log: seq<Path>, found: bool)
  {
    && Reachable(p, Dirs(flips))
    && NoDuplicates(log)
    && (forall d :: d in log ==> Complete(p, d) && !Todo(flips, d))
    && (forall d :: Feasible(p, d) ==> d in log || Todo(flips, d))
    && (!found ==> forall d :: d in log ==> !Buggy(p, d))
  }

  lemma StartExploring(p: Program)
    ensures Explored(p, [], [], false)
  {
    ReachableEmpty(p);
    assert Dirs([]) == [];
  }

  /** The state after a path, before the search moves on: as `Explored`, but the
      current path is done as well. */
  ghost predicate Visited(p: Program, flips: seq<Flip>, log: seq<Path>, found: bool)
  {
    && Reachable(p, Dirs(flips))
    && NoDuplicates(log)
    && (forall d :: d in log ==> Complete(p, d) && !Pending(flips, d))
    && (forall d :: Feasible(p, d) ==> d in log || Pending(flips, d))
    && (!found ==> forall d :: d in log ==> !Buggy(p, d))
  }

  lemma LogLeaf(p: Program, flips0: seq<Flip>, log: seq<Path>, found: bool, s: Snapshot, leaf: Path, found': bool)
    requires Explored(p, flips0, log, found)
    requires Finished(p, flips0, s, leaf)
    requires !found' ==> !found && forall x: Input :: !(AllHold(s.guards, x) && AnyHolds(s.errors, x))
    ensures Visited(p, s.flips, log + [leaf], found')
  {
    assert Todo(flips0, leaf);
    CurrentIsNotPending(s.flips, leaf);
    forall d | d in log + [leaf] ensures Complete(p, d) && !Pending(s.flips, d) {
      assert d in log || d == leaf;
    }
    forall d | Feasible(p, d) ensures d in log + [leaf] || Pending(s.flips, d) {
      if d !in log && Dirs(flips0) <= d {
        assert Todo(s.flips, d);
      }
    }
    if !found' {
      forall d | d in log + [leaf] ensures !Buggy(p, d) {
        assert d in log || d == leaf;
      }
    }
  }

  /** What a check finds possible at the end of a path happens on that path. */
  lemma ReportIsReal(p: Program, flips0: seq<Flip>, s: Snapshot, leaf: Path, x: Input)
    requires Finished(p, flips0, s, leaf) && AllHold(s.guards, x) && AnyHolds(s.errors, x)
    ensures Buggy(p, leaf)
  {
    assert PathHolds(p, leaf, x) && ErrorOn(p, leaf, x);
  }

  ghost predicate HasBuggy(p: Program, log: seq<Path>)
  {
    exists d :: d in log && Buggy(p, d)
  }

  lemma StillBuggy(p: Program, log: seq<Path>, leaf: Path)
    ensures HasBuggy(p, log) || Buggy(p, leaf) ==> HasBuggy(p, log + [leaf])
  {
    assert leaf in log + [leaf] && forall d :: d in log ==> d in log + [leaf];
  }

  lemma NextExplored(p: Program, flips: seq<Flip>, log: seq<Path>, found: bool)
    requires Visited(p, flips, log, found)
    ensures NextFlips(flips) != [] ==> Explored(p, NextFlips(flips), log, found)
    ensures NextFlips(flips) == [] ==> forall d :: Feasible(p, d) ==> d in log
  {
    NextFlipsReachable(p, flips);
    forall d
      ensures NextFlips(flips) != [] ==> (Todo(NextFlips(flips), d) <==> Pending(flips, d))
      ensures NextFlips(flips) == [] ==> !Pending(flips, d)
    {
      NextFlipsKeepsPending(flips, d);
    }
  }

  lemma TodoShrinks(p: Program, flips0: seq<Flip>, s: Snapshot, leaf: Path)
    requires Finished(p, flips0, s, leaf) && NextFlips(s.flips) != []
    ensures TodoSet(p, NextFlips(s.flips)) < TodoSet(p, flips0)
  {
    LeavesAreComplete(p, leaf);
    CurrentIsNotPending(s.flips, leaf);
    forall d ensures Todo(NextFlips(s.flips), d) <==> Pending(s.flips, d) {
      NextFlipsKeepsPending(s.flips, d);
    }
    assert leaf in TodoSet(p, flips0) && leaf !in TodoSet(p, NextFlips(s.flips));
  }

  /** The exploration of all of `p`.  Terminates for every program and every solver.
      Each leaf is visited at most once and each leaf whose path condition has a
      solution is visited, whatever the direction hints; and when no check reports a
      possible error there is none.  An abort reports an error by itself.  When the solver is
      conclusive, every error reported is one that some input runs into. */
  method Explore(p: Program, oracle: Oracle) returns (log: seq<Path>, found: bool, abort: bool)
    requires Reliable(oracle)
    ensures NoDuplicates(log) && forall d :: d in log ==> Complete(p, d)
    ensures !abort ==> forall d :: Feasible(p, d) ==> d in log
    ensures abort ==> found && exists ds :: AlwaysFails(p, ds)
    ensures (exists d :: Buggy(p, d)) ==> found
    ensures Conclusive(oracle) && found ==> abort || HasBuggy(p, log)
  {
    var c := new SequentialDfsChecker(oracle);
    log, found, abort := [], false, false;
    StartExploring(p);
    var more := true;
    while more
      invariant fresh(c) && fresh(c.dfs) && c.oracle == oracle
      invariant !abort
      invariant NoDuplicates(log) && forall d :: d in log ==> Complete(p, d)
      invariant Conclusive(oracle) && found ==> HasBuggy(p, log)
      invariant more ==>
        && c.feasible && c.solver == [] && c.guards == [] && c.errors == [] && c.dfs.flipIndex == 0
        && Explored(p, c.dfs.flips, log, found)
      invariant !more ==>
        && (forall d :: Feasible(p, d) ==> d in log)
        && (!found ==> forall d :: d in log ==> !Buggy(p, d))
      decreases more, TodoSet(p, c.dfs.flips)
    {
      ghost var flips0 := c.dfs.flips;
      var leaf;
      abort, leaf := Run(c, p);
      if abort {
        found := true;
        return;
      }
      ghost var s := c.State();
      var r := c.Check();
      assert c.State() == s;
      if r.Unsat? {
        forall x: Input ensures !(AllHold(s.guards, x) && AnyHolds(s.errors, x)) {
          assert AllHold([], x);
        }
      }
      if Conclusive(oracle) && r != Unsat {
        var x: Input :| AllHold(s.guards, x) && AnyHolds(s.errors, x);
        ReportIsReal(p, flips0, s, leaf, x);
      }
      StillBuggy(p, log, leaf);
      LogLeaf(p, flips0, log, found, s, leaf, found || r != Unsat);
      log, found := log + [leaf], found || r != Unsat;
      more := c.FindNextPath();
      NextExplored(p, s.flips, log, found);
      if more {
        TodoShrinks(p, flips0, s, leaf);
      }
    }
    forall d | Buggy(p, d) ensures found {
      assert Feasible(p, d);
    }
  }
}
