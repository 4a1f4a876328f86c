/** Symbolic programs as finite decision trees, the paths through them, and the
    bookkeeping by which a depth-first search remembers what is left to explore. */
module DecisionTrees {
  import opened Formulas

  /** A Boolean argument after constant propagation. */
  datatype Condition = Literal(value: bool) | Term(formula: Formula)

  /** What the code under symbolic execution does, one call to the checker after
      the other. */
  datatype Program =
    | Leaf
    | Branch(cond: Condition, hint: bool, thn: Program, els: Program)
    | Assertion(cond: Condition, next: Program)
    | Error(cond: Condition, next: Program)
  {
    function Child(direction: bool): Program
      requires Branch?
    {
      if direction then thn else els
    }
  }

  predicate Holds(c: Condition, x: Input)
  {
    match c
    case Literal(b) => b
    case Term(f) => Eval(f, x)
  }

  /** A path is the list of directions taken at branches on symbolic conditions:
      branches on literals leave no choice. */
  type Path = seq<bool>

  /** `ds` leads from the root of `p` exactly to a leaf. */
  predicate Complete(p: Program, ds: Path)
  {
    match p
    case Leaf => ds == []
    case Branch(Literal(b), _, _, _) => Complete(if b then p.thn else p.els, ds)
    case Branch(Term(_), _, _, _) => ds != [] && Complete(if ds[0] then p.thn else p.els, ds[1..])
    case Assertion(_, next) => Complete(next, ds)
    case Error(_, next) => Complete(next, ds)
  }

  /** No complete path goes on beyond another. */
  lemma {:induction false} LeafEndsPath(p: Program, ds: Path, es: Path)
    requires Complete(p, ds) && Complete(p, es)
    ensures ds <= es ==> ds == es
  {
    match p
    case Leaf =>
    case Branch(Literal(b), _, _, _) => LeafEndsPath(if b then p.thn else p.els, ds, es);
    case Branch(Term(_), _, _, _) =>
      if ds[0] == es[0] {
        LeafEndsPath(if ds[0] then p.thn else p.els, ds[1..], es[1..]);
      }
    case Assertion(_, next) => LeafEndsPath(next, ds, es);
    case Error(_, next) => LeafEndsPath(next, ds, es);
  }

  /** `ds` can be followed in `p`, perhaps not as far as a leaf. */
  predicate Reachable(p: Program, ds: Path)
  {
    match p
    case Leaf => ds == []
    case Branch(Literal(b), _, _, _) => Reachable(if b then p.thn else p.els, ds)
    case Branch(Term(_), _, _, _) => ds == [] || Reachable(if ds[0] then p.thn else p.els, ds[1..])
    case Assertion(_, next) => Reachable(next, ds)
    case Error(_, next) => Reachable(next, ds)
  }

  /** Every guard and assertion met while following `ds` holds for input `x`. */
  predicate PathHolds(p: Program, ds: Path, x: Input)
  {
    match p
    case Leaf => true
    case Branch(Literal(b), _, _, _) => PathHolds(if b then p.thn else p.els, ds, x)
    case Branch(Term(f), _, _, _) =>
      ds == [] || (Eval(f, x) == ds[0] && PathHolds(if ds[0] then p.thn else p.els, ds[1..], x))
    case Assertion(c, next) => Holds(c, x) && PathHolds(next, ds, x)
    case Error(_, next) => PathHolds(next, ds, x)
  }

  /** Some error condition met while following `ds` holds for input `x`. */
  predicate ErrorOn(p: Program, ds: Path, x: Input)
  {
    match p
    case Leaf => false
    case Branch(Literal(b), _, _, _) => ErrorOn(if b then p.thn else p.els, ds, x)
    case Branch(Term(_), _, _, _) => ds != [] && ErrorOn(if ds[0] then p.thn else p.els, ds[1..], x)
    case Assertion(_, next) => ErrorOn(next, ds, x)
    case Error(c, next) => Holds(c, x) || ErrorOn(next, ds, x)
  }

  /** The path condition of a leaf has a solution. */
  ghost predicate Feasible(p: Program, ds: Path)
  {
    Complete(p, ds) && exists x: Input :: PathHolds(p, ds, x)
  }

  /** All leaves. */
  function Leaves(p: Program): set<Path>
  {
    match p
    case Leaf => {[]}
    case Branch(Literal(b), _, _, _) => Leaves(if b then p.thn else p.els)
    case Branch(Term(_), _, _, _) =>
      (set d | d in Leaves(p.thn) :: [true] + d) + (set d | d in Leaves(p.els) :: [false] + d)
    case Assertion(_, next) => Leaves(next)
    case Error(_, next) => Leaves(next)
  }

  lemma {:induction false} LeavesAreComplete(p: Program, ds: Path)
    ensures ds in Leaves(p) <==> Complete(p, ds)
  {
    match p
    case Leaf =>
    case Branch(Literal(b), _, _, _) => LeavesAreComplete(if b then p.thn else p.els, ds);
    case Branch(Term(_), _, _, _) =>
      if ds != [] {
        LeavesAreComplete(p.thn, ds[1..]);
        LeavesAreComplete(p.els, ds[1..]);
        assert ds == [ds[0]] + ds[1..];
        forall d | ds == [true] + d || ds == [false] + d ensures d == ds[1..] {}
      }
    case Assertion(_, next) => LeavesAreComplete(next, ds);
    case Error(_, next) => LeavesAreComplete(next, ds);
  }

  /** Control flow decision along a symbolic path; a frozen flip is not tried the
      other way. */
  datatype Flip = Flip(direction: bool, frozen: bool)

  function Dirs(flips: seq<Flip>): (ds: Path)
    ensures |ds| == |flips|
    ensures forall i :: 0 <= i < |ds| ==> ds[i] == flips[i].direction
  {
    seq(|flips|, i requires 0 <= i < |flips| => flips[i].direction)
  }

  /** `ds` leaves the current path at flip `i`, which may still be flipped. */
  predicate DivergesAt(flips: seq<Flip>, ds: Path, i: nat)
    requires i < |flips|
  {
    !flips[i].frozen && i < |ds| && ds[..i] == Dirs(flips)[..i] && ds[i] != flips[i].direction
  }

  /** `ds` is still to be explored once the current path is done. */
  ghost predicate Pending(flips: seq<Flip>, ds: Path)
  {
    exists i :: 0 <= i < |flips| && DivergesAt(flips, ds, i)
  }

  /** `ds` is still to be explored, counting the current path. */
  ghost predicate Todo(flips: seq<Flip>, ds: Path)
  {
    Dirs(flips) <= ds || Pending(flips, ds)
  }

  /** Depth-first step: drop frozen flips from the back, then turn the last
      remaining one around and freeze it. */
  function NextFlips(flips: seq<Flip>): (r: seq<Flip>)
  {
    if flips == [] then []
    else
      var last := flips[|flips| - 1];
      if last.frozen then NextFlips(flips[..|flips| - 1])
      else flips[..|flips| - 1] + [Flip(!last.direction, true)]
  }

  /** The depth-first step neither loses nor repeats work: what was pending behind
      the finished path is exactly what is to do now. */
  lemma {:induction false} NextFlipsKeepsPending(flips: seq<Flip>, ds: Path)
    ensures NextFlips(flips) != [] ==> (Todo(NextFlips(flips), ds) <==> Pending(flips, ds))
    ensures NextFlips(flips) == [] ==> !Pending(flips, ds)
  {
    if flips != [] {
      var k := |flips| - 1;
      var front := flips[..k];
      var last := flips[k];
      if last.frozen {
        FrontPending(flips, ds);
        NextFlipsKeepsPending(front, ds);
      } else {
        TurnKeepsPending(front, last, ds);
        assert flips == front + [last];
      }
    }
  }

  /** The last flip turned around. */
  lemma TurnKeepsPending(front: seq<Flip>, last: Flip, ds: Path)
    requires !last.frozen
    ensures Todo(front + [Flip(!last.direction, true)], ds) <==> Pending(front + [last], ds)
  {
    ExtendPending(front, last, ds);
    ExtendPending(front, Flip(!last.direction, true), ds);
    assert Dirs(front + [Flip(!last.direction, true)]) == Dirs(front) + [!last.direction];
  }

  lemma FrontPending(flips: seq<Flip>, ds: Path)
    requires flips != []
    ensures Pending(flips, ds) <==> Pending(flips[..|flips| - 1], ds) || DivergesAt(flips, ds, |flips| - 1)
  {
    var front := flips[..|flips| - 1];
    forall i | 0 <= i < |front| ensures DivergesAt(front, ds, i) == DivergesAt(flips, ds, i) {
      assert Dirs(front)[..i] == Dirs(flips)[..i];
    }
    if Pending(front, ds) {
      var i :| 0 <= i < |front| && DivergesAt(front, ds, i);
      assert DivergesAt(flips, ds, i);
    }
    if i :| 0 <= i < |flips| && DivergesAt(flips, ds, i) {
      if i < |front| {
        assert DivergesAt(front, ds, i);
      }
    }
  }

  /** Recording one more decision. */
  lemma ExtendPending(flips: seq<Flip>, f: Flip, ds: Path)
    ensures Pending(flips + [f], ds) <==>
            Pending(flips, ds) || (!f.frozen && Dirs(flips) + [!f.direction] <= ds)
  {
    var r := flips + [f];
    FrontPending(r, ds);
    assert r[..|flips|] == flips;
    assert Dirs(r)[..|flips|] == Dirs(flips);
    if |flips| < |ds| {
      assert ds[..|flips| + 1] == ds[..|flips|] + [ds[|flips|]];
    }
  }

  /** A path cannot both follow the current decisions and leave them. */
  lemma CurrentIsNotPending(flips: seq<Flip>, ds: Path)
    requires Dirs(flips) <= ds
    ensures !Pending(flips, ds)
  {
    forall i | 0 <= i < |flips| ensures !DivergesAt(flips, ds, i) {
      assert ds[i] == Dirs(flips)[i];
    }
  }

  /** After the step the new decisions can be followed, provided the old ones could. */
  lemma {:induction false} NextFlipsReachable(p: Program, flips: seq<Flip>)
    requires Reachable(p, Dirs(flips))
    ensures Reachable(p, Dirs(NextFlips(flips)))
  {
    if flips != [] {
      var k := |flips| - 1;
      ReachableSibling(p, Dirs(flips));
      assert Dirs(flips)[..k] == Dirs(flips[..k]);
      if flips[k].frozen {
        NextFlipsReachable(p, flips[..k]);
      } else {
        assert Dirs(NextFlips(flips)) == Dirs(flips)[..k] + [!Dirs(flips)[k]];
      }
    } else {
      assert Dirs(flips) == [];
    }
  }

  lemma {:induction false} ReachableSibling(p: Program, ds: Path)
    requires Reachable(p, ds) && ds != []
    ensures Reachable(p, ds[..|ds| - 1])
    ensures Reachable(p, ds[..|ds| - 1] + [!ds[|ds| - 1]])
  {
    match p
    case Leaf =>
    case Branch(Literal(b), _, _, _) => ReachableSibling(if b then p.thn else p.els, ds);
    case Branch(Term(_), _, _, _) =>
      var c := if ds[0] then p.thn else p.els;
      var es := ds[..|ds| - 1] + [!ds[|ds| - 1]];
      if |ds| == 1 {
        assert ds[1..] == [] && es[1..] == [];
        ReachableEmpty(p.thn);
        ReachableEmpty(p.els);
      } else {
        ReachableSibling(c, ds[1..]);
        assert ds[..|ds| - 1][1..] == ds[1..][..|ds[1..]| - 1];
        assert es[1..] == ds[1..][..|ds[1..]| - 1] + [!ds[1..][|ds[1..]| - 1]];
      }
    case Assertion(_, next) => ReachableSibling(next, ds);
    case Error(_, next) => ReachableSibling(next, ds);
  }

  lemma {:induction false} ReachableEmpty(p: Program)
    ensures Reachable(p, [])
  {
    match p
    case Leaf =>
    case Branch(Literal(b), _, _, _) => ReachableEmpty(if b then p.thn else p.els);
    case Branch(Term(_), _, _, _) =>
    case Assertion(_, next) => ReachableEmpty(next);
    case Error(_, next) => ReachableEmpty(next);
  }

  /** Following `done` from the root of `p` leads to `cur`. */
  ghost predicate LeadsTo(p: Program, done: Path, cur: Program)
  {
    && (forall es: Path :: Complete(p, done + es) <==> Complete(cur, es))
    && (forall es: Path :: Reachable(p, done + es) <==> Reachable(cur, es))
  }

  /** ... and `guards` and `errors` are the terms collected on the way. */
  ghost predicate Collected(p: Program, done: Path, guards: seq<Formula>, errors: seq<Formula>, cur: Program)
  {
    && (forall es: Path, x: Input ::
          PathHolds(p, done + es, x) <==> AllHold(guards, x) && PathHolds(cur, es, x))
    && (forall es: Path, x: Input ::
          ErrorOn(p, done + es, x) <==> AnyHolds(errors, x) || ErrorOn(cur, es, x))
  }

  lemma StartCollecting(p: Program)
    ensures LeadsTo(p, [], p) && Collected(p, [], [], [], p)
  {
    forall es: Path ensures [] + es == es {}
  }

  /** The next program point, and its terms, after a symbolic branch. */
  lemma TakeBranch(p: Program, done: Path, cur: Program, d: bool)
    requires LeadsTo(p, done, cur) && cur.Branch? && cur.cond.Term?
    ensures LeadsTo(p, done + [d], cur.Child(d))
  {
    forall es: Path ensures (done + [d]) + es == done + ([d] + es) && ([d] + es)[1..] == es {}
    forall es: Path ensures Complete(p, done + [d] + es) <==> Complete(cur.Child(d), es) {
      assert Complete(p, done + ([d] + es)) <==> Complete(cur, [d] + es);
    }
    forall es: Path ensures Reachable(p, done + [d] + es) <==> Reachable(cur.Child(d), es) {
      assert Reachable(p, done + ([d] + es)) <==> Reachable(cur, [d] + es);
    }
  }

  lemma CollectGuard(p: Program, done: Path, guards: seq<Formula>, errors: seq<Formula>, cur: Program, d: bool)
    requires Collected(p, done, guards, errors, cur) && cur.Branch? && cur.cond.Term?
    ensures Collected(p, done + [d], guards + [Direct(cur.cond.formula, d)], errors, cur.Child(d))
  {
    var g := Direct(cur.cond.formula, d);
    forall es: Path ensures (done + [d]) + es == done + ([d] + es) && ([d] + es)[1..] == es {}
    forall es: Path, x: Input
      ensures PathHolds(p, done + [d] + es, x) <==> AllHold(guards + [g], x) && PathHolds(cur.Child(d), es, x)
      ensures ErrorOn(p, done + [d] + es, x) <==> AnyHolds(errors, x) || ErrorOn(cur.Child(d), es, x)
    {
      AllHoldAppend(guards, [g], x);
      assert AllHold([g], x) <==> Eval([g][0], x);
      assert PathHolds(p, done + ([d] + es), x) <==> AllHold(guards, x) && PathHolds(cur, [d] + es, x);
      assert ErrorOn(p, done + ([d] + es), x) <==> AnyHolds(errors, x) || ErrorOn(cur, [d] + es, x);
    }
  }

  lemma CollectAssertion(p: Program, done: Path, guards: seq<Formula>, errors: seq<Formula>, cur: Program,
                         gs: seq<Formula>)
    requires Collected(p, done, guards, errors, cur) && cur.Assertion?
    requires |gs| == |guards| + 1 && gs[..|guards|] == guards
    requires forall x: Input :: Eval(gs[|guards|], x) <==> Holds(cur.cond, x)
    ensures Collected(p, done, gs, errors, cur.next)
  {
    forall es: Path, x: Input
      ensures PathHolds(p, done + es, x) <==> AllHold(gs, x) && PathHolds(cur.next, es, x)
      ensures ErrorOn(p, done + es, x) <==> AnyHolds(errors, x) || ErrorOn(cur.next, es, x)
    {
      var g := gs[|guards|];
      assert gs == guards + [g];
      AllHoldAppend(guards, [g], x);
      assert AllHold([g], x) <==> Eval([g][0], x);
      assert PathHolds(p, done + es, x) <==> AllHold(guards, x) && PathHolds(cur, es, x);
      assert ErrorOn(p, done + es, x) <==> AnyHolds(errors, x) || ErrorOn(cur, es, x);
    }
  }

  lemma CollectError(p: Program, done: Path, guards: seq<Formula>, errors: seq<Formula>, cur: Program,
                     es': seq<Formula>)
    requires Collected(p, done, guards, errors, cur) && cur.Error?
    requires cur.cond != Literal(true)
    requires es' == if cur.cond.Term? then errors + [cur.cond.formula] else errors
    ensures Collected(p, done, guards, es', cur.next)
  {
    forall es: Path, x: Input
      ensures PathHolds(p, done + es, x) <==> AllHold(guards, x) && PathHolds(cur.next, es, x)
      ensures ErrorOn(p, done + es, x) <==> AnyHolds(es', x) || ErrorOn(cur.next, es, x)
    {
      assert PathHolds(p, done + es, x) <==> AllHold(guards, x) && PathHolds(cur, es, x);
      assert ErrorOn(p, done + es, x) <==> AnyHolds(errors, x) || ErrorOn(cur, es, x);
      if cur.cond.Term? {
        var k := |errors|;
        assert es'[k] == cur.cond.formula;
        assert forall i :: 0 <= i < k ==> es'[i] == errors[i];
      }
    }
  }

  /** A branch on a literal changes nothing but the program point. */
  lemma PassLiteral(p: Program, done: Path, guards: seq<Formula>, errors: seq<Formula>, cur: Program)
    requires cur.Branch? && cur.cond.Literal?
    ensures LeadsTo(p, done, cur) ==> LeadsTo(p, done, cur.Child(cur.cond.value))
    ensures Collected(p, done, guards, errors, cur) ==> Collected(p, done, guards, errors, cur.Child(cur.cond.value))
  {
    forall es: Path, x: Input
      ensures PathHolds(cur.Child(cur.cond.value), es, x) == PathHolds(cur, es, x)
      ensures ErrorOn(cur.Child(cur.cond.value), es, x) == ErrorOn(cur, es, x)
    {}
  }

  lemma PassStatement(p: Program, done: Path, cur: Program)
    requires LeadsTo(p, done, cur) && (cur.Assertion? || cur.Error?)
    ensures LeadsTo(p, done, cur.next)
  {
  }

  /** The leaves still to be visited; shrinks with every path. */
  ghost function TodoSet(p: Program, flips: seq<Flip>): set<Path>
  {
    set d | d in Leaves(p) && Todo(flips, d)
  }
}
