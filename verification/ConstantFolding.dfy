/** How far constants are propagated: which expressions become literals, and how many literals
    stay in a term. */
module ConstantFolding {
  import opened Words
  import opened ConstantPropagation

  // ---- What becomes a literal -------------------------------------------------------------

  datatype Known = Unknown | Known(v: nat)

  /** What can be said of the value of an expression without looking at symbols: operators are
      applied to known operands, and a false conjunct or a true disjunct decides alone.  Unary
      operators are not looked through. */
  function KnownValue(e: Term, w: nat): Known
  {
    match e
    case Const(v) => Known(v)
    case Binary(op, a, b) =>
      var u, v := KnownValue(a, w), KnownValue(b, w);
      if u.Known? && v.Known? then Known(Fold(op, u.v, v.v, w))
      else if op == LAND && (u == Known(0) || v == Known(0)) then Known(0)
      else if op == LOR && (u == Known(1) || v == Known(1)) then Known(1)
      else Unknown
    case _ => Unknown
  }

  /** Main result: an expression becomes a literal exactly if its value is known in this sense,
      and the literal is that value. */
  lemma {:induction false} LiteralExactly(e: Term, ty: Type, w: nat)
    requires HasType(e, ty, w) && NeverMisfolds(e, w)
    ensures Simplify(e, w).Literal? <==> KnownValue(e, w).Known?
    ensures Simplify(e, w).Literal? ==> KnownValue(e, w) == Known(Simplify(e, w).v)
  {
    match e
    case Binary(op, a, b) =>
      var ty' := if op == LAND || op == LOR then Boolean else Word;
      LiteralExactly(a, ty', w);
      LiteralExactly(b, ty', w);
      if ty' == Boolean {
        TruthStays(a, w);
        TruthStays(b, w);
      }
      ApplyLiteral(op, Simplify(a, w), Simplify(b, w), w);
    case _ =>
  }

  function KnownOf(u: Internal): Known
  {
    if u.Literal? then Known(u.v) else Unknown
  }

  function KnownOfBoth(op: Opcode, u: Known, v: Known, w: nat): Known
  {
    if u.Known? && v.Known? then Known(Fold(op, u.v, v.v, w))
    else if op == LAND && (u == Known(0) || v == Known(0)) then Known(0)
    else if op == LOR && (u == Known(1) || v == Known(1)) then Known(1)
    else Unknown
  }

  /** One operator. */
  lemma ApplyLiteral(op: Opcode, u: Internal, v: Internal, w: nat)
    requires TruthOperands(op, u, v) && !Misfolds(op, u, v)
    ensures KnownOf(Apply(op, u, v, w)) == KnownOfBoth(op, KnownOf(u), KnownOf(v), w)
  {
    if InMonoidRange(op) && u.Literal? && v.Literal? {
      Commutes(op, u.v, v.v, w);
    }
  }

  /** Binary operators only, down to constants. */
  predicate OverConstants(e: Term)
  {
    match e
    case Const(_) => true
    case Binary(_, a, b) => OverConstants(a) && OverConstants(b)
    case _ => false
  }

  lemma {:induction false} ConstantsAreLiterals(e: Term, w: nat)
    requires OverConstants(e)
    ensures Simplify(e, w).Literal?
  {
    match e
    case Const(_) =>
    case Binary(_, a, b) =>
      ConstantsAreLiterals(a, w);
      ConstantsAreLiterals(b, w);
  }

  /** An expression over constants becomes a literal with its value. */
  lemma ConstantsFold(e: Term, ty: Type, x: Assignment, w: nat)
    requires OverConstants(e) && HasType(e, ty, w) && NeverMisfolds(e, w)
    ensures Simplify(e, w) == Literal(Eval(e, x, w))
  {
    ConstantsAreLiterals(e, w);
    SimplifyCorrect(e, ty, x, w);
  }

  /** A false conjunct or a true disjunct decides, whatever the other operand is. */
  lemma Annihilates(e: Term, w: nat)
    requires HasType(e, Boolean, w)
    ensures Simplify(Binary(LAND, e, Const(0)), w) == Simplify(Binary(LAND, Const(0), e), w) == Literal(0)
    ensures Simplify(Binary(LOR, e, Const(1)), w) == Simplify(Binary(LOR, Const(1), e), w) == Literal(1)
  {
    TruthStays(e, w);
  }

  // ---- How many literals stay -----------------------------------------------------------------

  /** Two literals under one operator become one, over the same term, on whichever side they
      stand. */
  lemma LiteralsMerge(op: Opcode, u: Internal, a: nat, b: nat, w: nat)
    requires IsMonoid(op) && !IsAnnihilator(op, a) && !IsAnnihilator(op, b)
    requires !u.Literal? && !(u.Lazy? && u.op == op)
    ensures var merged := Lazy(TermOf(u), Fold(op, a, b, w), op);
      && Apply(op, Apply(op, u, Literal(a), w), Literal(b), w) == merged
      && Apply(op, Apply(op, Literal(a), u, w), Literal(b), w) == merged
      && Apply(op, Literal(b), Apply(op, u, Literal(a), w), w) == merged
      && Apply(op, Literal(b), Apply(op, Literal(a), u, w), w) == merged
  {
  }

  /** `e` applies `op` to `t` and any number of expressions over constants, in any order. */
  predicate IsChain(op: Opcode, e: Term, t: Term)
  {
    || e == t
    || (e.Binary? && e.op == op &&
        ((IsChain(op, e.left, t) && OverConstants(e.right)) || (OverConstants(e.left) && IsChain(op, e.right, t))))
  }

  function Operators(t: Term): nat
  {
    match t
    case Unary(_, a) => 1 + Operators(a)
    case Binary(_, a, b) => 1 + Operators(a) + Operators(b)
    case _ => 0
  }

  /** Main result: however many constants a chain has, one operator and one literal are left. */
  lemma {:induction false} ChainCollapses(op: Opcode, e: Term, t: Term, w: nat)
    requires op in {ADD, MUL, AND, OR, XOR} && (t.Symbol? || t.Select?) && IsChain(op, e, t)
    ensures Simplify(e, w) == Plain(t) || Pending(Simplify(e, w), op, t)
    ensures e != t ==> Pending(Simplify(e, w), op, t)
    ensures Operators(TermOf(Simplify(e, w))) <= 1
  {
    if e != t {
      if IsChain(op, e.left, t) && OverConstants(e.right) {
        ChainCollapses(op, e.left, t, w);
        ConstantsAreLiterals(e.right, w);
      } else {
        ChainCollapses(op, e.right, t, w);
        ConstantsAreLiterals(e.left, w);
      }
    }
  }

  /** One literal is pending over `t`. */
  predicate Pending(u: Internal, op: Opcode, t: Term)
  {
    u.Lazy? && u.op == op && u.term == t
  }
}
