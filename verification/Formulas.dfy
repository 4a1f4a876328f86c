/** Boolean terms over symbolic inputs, and the contract of the SMT solver that
    the path explorers call. */
module Formulas {

  /** A choice of concrete values for the symbolic inputs `x!1`, `x!2`, ... */
  type Input = nat -> int

  /** A Boolean term.  An atom is any predicate over the inputs. */
  datatype Formula =
    | Atom(holds: Input -> bool)
    | Not(arg: Formula)
    | And(left: Formula, right: Formula)
    | Or(left: Formula, right: Formula)

  predicate Eval(f: Formula, x: Input)
  {
    match f
    case Atom(p) => p(x)
    case Not(g) => !Eval(g, x)
    case And(g, h) => Eval(g, x) && Eval(h, x)
    case Or(g, h) => Eval(g, x) || Eval(h, x)
  }

  /** Conjunction of a list of terms; the empty list is true. */
  ghost predicate AllHold(fs: seq<Formula>, x: Input)
  {
    forall i :: 0 <= i < |fs| ==> Eval(fs[i], x)
  }

  /** Disjunction of a list of terms; the empty list is false. */
  ghost predicate AnyHolds(fs: seq<Formula>, x: Input)
  {
    exists i :: 0 <= i < |fs| && Eval(fs[i], x)
  }

  function Conjunction(fs: seq<Formula>): (r: Formula)
    requires fs != []
    ensures forall x: Input :: Eval(r, x) <==> AllHold(fs, x)
  {
    if |fs| == 1 then fs[0]
    else
      var rest := Conjunction(fs[1..]);
      assert fs == [fs[0]] + fs[1..];
      And(fs[0], rest)
  }

  function Disjunction(fs: seq<Formula>): (r: Formula)
    requires fs != []
    ensures forall x: Input :: Eval(r, x) <==> AnyHolds(fs, x)
  {
    if |fs| == 1 then fs[0]
    else
      var rest := Disjunction(fs[1..]);
      assert fs == [fs[0]] + fs[1..];
      Or(fs[0], rest)
  }

  lemma AllHoldAppend(fs: seq<Formula>, gs: seq<Formula>, x: Input)
    ensures AllHold(fs + gs, x) <==> AllHold(fs, x) && AllHold(gs, x)
  {
    if AllHold(fs + gs, x) {
      forall i | 0 <= i < |fs| ensures Eval(fs[i], x) { assert (fs + gs)[i] == fs[i]; }
      forall i | 0 <= i < |gs| ensures Eval(gs[i], x) { assert (fs + gs)[|fs| + i] == gs[i]; }
    }
  }

  /** The term that guards direction `direction` of a branch on `f`. */
  function Direct(f: Formula, direction: bool): Formula
  {
    if direction then f else Not(f)
  }

  datatype CheckResult = Sat | Unsat | Unknown

  /** The result of checking under assumptions: the verdict, and how many
      assumptions were written to the end of the unsat core; for the singleton
      core vector of the callers that is at most one, the latest assumption in
      the core, given here by its index. */
  datatype CoreResult = NoCore | Core(last: nat)

  /** A solver.  Answers may differ from call to call, so both functions also
      take the number of checks made so far. */
  datatype Oracle = Oracle(
    check: (nat, seq<Formula>) -> CheckResult,
    assume_: (nat, seq<Formula>, seq<Formula>) -> CoreResult)

  /** All that is expected of a solver: an unsat answer is right, and a reported
      core together with the asserted terms is inconsistent.  Nothing is expected
      of sat or unknown. */
  ghost predicate Reliable(o: Oracle)
  {
    && (forall n: nat, fs: seq<Formula> :: o.check(n, fs).Unsat? ==> forall x: Input :: !AllHold(fs, x))
    && (forall n: nat, asserted: seq<Formula>, gs: seq<Formula> ::
          var r := o.assume_(n, asserted, gs);
          r.Core? ==>
            && r.last < |gs|
            && forall x: Input :: !(AllHold(asserted, x) && AllHold(gs[..r.last + 1], x)))
  }

  ghost predicate Satisfiable(fs: seq<Formula>)
  {
    exists x: Input :: AllHold(fs, x)
  }

  /** A reliable solver that also decides every check: its sat answers are right as well, and
      it never gives up. */
  ghost predicate Conclusive(o: Oracle)
  {
    Reliable(o) && forall n: nat, fs: seq<Formula> :: o.check(n, fs) == if Satisfiable(fs) then Sat else Unsat
  }
}
