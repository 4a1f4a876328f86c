/** The path that a run follows without looking at feasibility, and the terms collected on
    a path. */
module PathConditions {
  import opened Formulas
  import opened DecisionTrees

  function Constant(b: bool): Formula { Atom((x: Input) => b) }

  function TermOf(c: Condition): (f: Formula)
    ensures forall x: Input :: Eval(f, x) <==> Holds(c, x)
  {
    match c
    case Literal(b) => Constant(b)
    case Term(f) => f
  }

  /** An error counts only under the guards in force when it is recorded. */
  function ErrorTerm(guards: seq<Formula>, c: Condition): (f: Formula)
    ensures forall x: Input :: Eval(f, x) <==> AllHold(guards, x) && Holds(c, x)
  {
    var guard := if guards == [] then Constant(true) else Conjunction(guards);
    match c
    case Literal(b) => if b then guard else Constant(false)
    case Term(f) => And(guard, f)
  }

  /** Follow `ds`, then take "else" down to a leaf. */
  function Follow(p: Program, ds: Path): Path
  {
    match p
    case Leaf => []
    case Branch(Literal(b), _, _, _) => Follow(p.Child(b), ds)
    case Branch(Term(_), _, _, _) =>
      if ds == [] then [false] + Follow(p.els, []) else [ds[0]] + Follow(p.Child(ds[0]), ds[1..])
    case Assertion(_, next) => Follow(next, ds)
    case Error(_, next) => Follow(next, ds)
  }

  /** The terms of the directions taken on a complete path. */
  function Guards(p: Program, e: Path): seq<Formula>
  {
    match p
    case Leaf => []
    case Branch(Literal(b), _, _, _) => Guards(p.Child(b), e)
    case Branch(Term(f), _, _, _) => if e == [] then [] else [Direct(f, e[0])] + Guards(p.Child(e[0]), e[1..])
    case Assertion(_, next) => Guards(next, e)
    case Error(_, next) => Guards(next, e)
  }

  function Assertions(p: Program, e: Path): seq<Formula>
  {
    match p
    case Leaf => []
    case Branch(Literal(b), _, _, _) => Assertions(p.Child(b), e)
    case Branch(Term(_), _, _, _) => if e == [] then [] else Assertions(p.Child(e[0]), e[1..])
    case Assertion(c, next) => [TermOf(c)] + Assertions(next, e)
    case Error(_, next) => Assertions(next, e)
  }

  /** The error terms of a complete path, when `guards` were collected before it. */
  function Errors(p: Program, e: Path, guards: seq<Formula>): seq<Formula>
  {
    match p
    case Leaf => []
    case Branch(Literal(b), _, _, _) => Errors(p.Child(b), e, guards)
    case Branch(Term(f), _, _, _) =>
      if e == [] then [] else Errors(p.Child(e[0]), e[1..], guards + [Direct(f, e[0])])
    case Assertion(_, next) => Errors(next, e, guards)
    case Error(c, next) => [ErrorTerm(guards, c)] + Errors(next, e, guards)
  }

  lemma {:induction false} FollowCompletes(p: Program, ds: Path)
    requires Reachable(p, ds)
    ensures Complete(p, Follow(p, ds)) && ds <= Follow(p, ds)
    ensures forall i :: |ds| <= i < |Follow(p, ds)| ==> !Follow(p, ds)[i]
  {
    match p
    case Leaf =>
    case Branch(Literal(b), _, _, _) => FollowCompletes(p.Child(b), ds);
    case Branch(Term(_), _, _, _) =>
      if ds == [] {
        ReachableEmpty(p.els);
        FollowCompletes(p.els, []);
        assert Follow(p, ds)[1..] == Follow(p.els, []);
      } else {
        FollowCompletes(p.Child(ds[0]), ds[1..]);
        assert Follow(p, ds)[1..] == Follow(p.Child(ds[0]), ds[1..]);
        assert ds == [ds[0]] + ds[1..];
      }
    case Assertion(_, next) => FollowCompletes(next, ds);
    case Error(_, next) => FollowCompletes(next, ds);
  }

  lemma {:induction false} OneGuardPerDirection(p: Program, e: Path)
    requires Complete(p, e)
    ensures |Guards(p, e)| == |e|
  {
    match p
    case Leaf =>
    case Branch(Literal(b), _, _, _) => OneGuardPerDirection(p.Child(b), e);
    case Branch(Term(_), _, _, _) => OneGuardPerDirection(p.Child(e[0]), e[1..]);
    case Assertion(_, next) => OneGuardPerDirection(next, e);
    case Error(_, next) => OneGuardPerDirection(next, e);
  }

  lemma AllHoldFirst(f: Formula, fs: seq<Formula>, x: Input)
    ensures AllHold([f] + fs, x) <==> Eval(f, x) && AllHold(fs, x)
  {
    AllHoldAppend([f], fs, x);
    assert AllHold([f], x) <==> Eval([f][0], x);
  }

  lemma AnyHoldsFirst(f: Formula, fs: seq<Formula>, x: Input)
    ensures AnyHolds([f] + fs, x) <==> Eval(f, x) || AnyHolds(fs, x)
  {
    var all := [f] + fs;
    if Eval(f, x) {
      assert Eval(all[0], x);
    }
    if i :| 0 <= i < |fs| && Eval(fs[i], x) {
      assert Eval(all[i + 1], x);
    }
    if i :| 0 <= i < |all| && Eval(all[i], x) {
      assert i > 0 ==> Eval(fs[i - 1], x);
    }
  }

  /** The path condition is made of the guards and the assertions. */
  lemma {:induction false} PathCondition(p: Program, e: Path, x: Input)
    requires Complete(p, e)
    ensures PathHolds(p, e, x) <==> AllHold(Guards(p, e), x) && AllHold(Assertions(p, e), x)
  {
    match p
    case Leaf =>
    case Branch(Literal(b), _, _, _) => PathCondition(p.Child(b), e, x);
    case Branch(Term(f), _, _, _) =>
      PathCondition(p.Child(e[0]), e[1..], x);
      AllHoldFirst(Direct(f, e[0]), Guards(p.Child(e[0]), e[1..]), x);
    case Assertion(c, next) =>
      PathCondition(next, e, x);
      AllHoldFirst(TermOf(c), Assertions(next, e), x);
    case Error(_, next) => PathCondition(next, e, x);
  }

  /** For inputs that follow the path, the recorded errors are those met. */
  lemma {:induction false} ErrorCondition(p: Program, e: Path, guards: seq<Formula>, x: Input)
    requires Complete(p, e) && AllHold(guards, x) && AllHold(Guards(p, e), x)
    ensures AnyHolds(Errors(p, e, guards), x) <==> ErrorOn(p, e, x)
  {
    match p
    case Leaf =>
    case Branch(Literal(b), _, _, _) => ErrorCondition(p.Child(b), e, guards, x);
    case Branch(Term(f), _, _, _) =>
      AllHoldFirst(Direct(f, e[0]), Guards(p.Child(e[0]), e[1..]), x);
      AllHoldAppend(guards, [Direct(f, e[0])], x);
      AllHoldFirst(Direct(f, e[0]), [], x);
      assert [Direct(f, e[0])] + [] == [Direct(f, e[0])];
      ErrorCondition(p.Child(e[0]), e[1..], guards + [Direct(f, e[0])], x);
    case Assertion(_, next) => ErrorCondition(next, e, guards, x);
    case Error(c, next) =>
      ErrorCondition(next, e, guards, x);
      AnyHoldsFirst(ErrorTerm(guards, c), Errors(next, e, guards), x);
  }

  /** Input `x` goes along `e` until it runs into an error. */
  predicate StopsOn(p: Program, e: Path, x: Input)
  {
    match p
    case Leaf => false
    case Branch(Literal(b), _, _, _) => StopsOn(p.Child(b), e, x)
    case Branch(Term(f), _, _, _) => e != [] && Eval(f, x) == e[0] && StopsOn(p.Child(e[0]), e[1..], x)
    case Assertion(_, next) => StopsOn(next, e, x)
    case Error(c, next) => Holds(c, x) || StopsOn(next, e, x)
  }

  /** For all inputs, whether or not they follow the path to its end. */
  lemma {:induction false} ErrorsAreStops(p: Program, e: Path, guards: seq<Formula>, x: Input)
    ensures AnyHolds(Errors(p, e, guards), x) <==> AllHold(guards, x) && StopsOn(p, e, x)
  {
    match p
    case Leaf =>
    case Branch(Literal(b), _, _, _) => ErrorsAreStops(p.Child(b), e, guards, x);
    case Branch(Term(f), _, _, _) =>
      if e != [] {
        AllHoldAppend(guards, [Direct(f, e[0])], x);
        AllHoldFirst(Direct(f, e[0]), [], x);
        assert [Direct(f, e[0])] + [] == [Direct(f, e[0])];
        ErrorsAreStops(p.Child(e[0]), e[1..], guards + [Direct(f, e[0])], x);
      }
    case Assertion(_, next) => ErrorsAreStops(next, e, guards, x);
    case Error(c, next) =>
      ErrorsAreStops(next, e, guards, x);
      AnyHoldsFirst(ErrorTerm(guards, c), Errors(next, e, guards), x);
  }

  /** Paths with the same start have the same guards there, and where they part they
      have the two sides of one branch. */
  lemma {:induction false} GuardsPart(p: Program, d: Path, e: Path, i: nat) returns (f: Formula)
    requires Complete(p, d) && Complete(p, e) && i < |d| && i < |e| && d[..i] == e[..i]
    ensures |Guards(p, d)| == |d| && |Guards(p, e)| == |e|
    ensures Guards(p, d)[..i] == Guards(p, e)[..i]
    ensures Guards(p, d)[i] == Direct(f, d[i]) && Guards(p, e)[i] == Direct(f, e[i])
  {
    OneGuardPerDirection(p, d);
    OneGuardPerDirection(p, e);
    match p
    case Branch(Literal(b), _, _, _) => f := GuardsPart(p.Child(b), d, e, i);
    case Branch(Term(g), _, _, _) =>
      if i == 0 {
        f := g;
      } else {
        assert d[0] == d[..i][0] == e[..i][0] == e[0];
        assert d[1..][..i - 1] == d[..i][1..] && e[1..][..i - 1] == e[..i][1..];
        f := GuardsPart(p.Child(d[0]), d[1..], e[1..], i - 1);
        GuardsTail(p, d, i);
        GuardsTail(p, e, i);
      }
    case Assertion(_, next) => f := GuardsPart(next, d, e, i);
    case Error(_, next) => f := GuardsPart(next, d, e, i);
  }

  lemma GuardsTail(p: Program, d: Path, i: nat)
    requires p.Branch? && p.cond.Term? && 0 < i < |d| && |Guards(p, d)| == |d|
    ensures var tail := Guards(p.Child(d[0]), d[1..]);
      && |tail| == |d| - 1 && Guards(p, d)[i] == tail[i - 1]
      && Guards(p, d)[..i] == [Direct(p.cond.formula, d[0])] + tail[..i - 1]
  {
  }

  /** Two different leaves part somewhere. */
  lemma PathsPart(p: Program, d: Path, e: Path) returns (i: nat)
    requires Complete(p, d) && Complete(p, e) && d != e
    ensures i < |d| && i < |e| && d[..i] == e[..i] && d[i] != e[i]
  {
    LeafEndsPath(p, d, e);
    LeafEndsPath(p, e, d);
    assert d[..|d|] == d && e[..|e|] == e;
    i := 0;
    while i < |d| && i < |e| && d[i] == e[i]
      invariant i <= |d| && i <= |e| && d[..i] == e[..i]
    {
      i := i + 1;
    }
  }

  /** The guards up to `j`, with the last one turned around. */
  function FlippedAt(gs: seq<Formula>, j: nat): (r: seq<Formula>)
    requires j < |gs|
    ensures |r| == j + 1
  {
    gs[..j] + [Not(gs[j])]
  }

  /** An input on another path satisfies the guards of this one turned around where the
      paths part. */
  lemma FlippedHolds(p: Program, e: Path, d: Path, i: nat, x: Input)
    requires Complete(p, e) && Complete(p, d) && i < |d| && i < |e| && d[..i] == e[..i] && d[i] != e[i]
    requires PathHolds(p, d, x)
    ensures i < |Guards(p, e)| && AllHold(FlippedAt(Guards(p, e), i), x)
  {
    var f := GuardsPart(p, d, e, i);
    PathCondition(p, d, x);
    var gs := FlippedAt(Guards(p, e), i);
    forall k | 0 <= k < |gs| ensures Eval(gs[k], x) {
      assert Eval(Guards(p, d)[k], x);
      if k < i {
        assert gs[k] == Guards(p, e)[..i][k] == Guards(p, d)[..i][k];
      }
    }
  }
}
