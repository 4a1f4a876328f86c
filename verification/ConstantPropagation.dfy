/** Constant propagation: values that are literals, terms, or a term with one operator and
    literal still to be applied. */
module ConstantPropagation {
  import opened Words

  datatype Type = Word | Boolean

  datatype UnaryOp = NEG | NOT | LNOT

  /** Symbolic terms, and the expressions they come from. */
  datatype Term =
    | Const(v: nat)
    | Symbol(id: nat, ty: Type)
    | Unary(uop: UnaryOp, arg: Term)
    | Binary(op: Opcode, left: Term, right: Term)
    | Select(array: ArrayTerm, index: Term)

  datatype ArrayTerm =
    | ArraySymbol(id: nat)
    | Store(array: ArrayTerm, index: Term, value: Term)

  /** What the symbols stand for. */
  datatype Assignment = Assignment(scalars: nat -> nat, arrays: (nat, nat) -> nat)

  function Size(ty: Type, w: nat): (n: nat)
    ensures n > 0
  {
    if ty == Boolean then 2 else Pow2(w)
  }

  function FoldUnary(op: UnaryOp, a: nat, w: nat): nat
  {
    match op
    case NEG => Wrap(0 - a, w)
    case NOT => Wrap(0 - a - 1, w)
    case LNOT => Truth(a == 0)
  }

  function Eval(t: Term, x: Assignment, w: nat): nat
    decreases t
  {
    match t
    case Const(v) => v
    case Symbol(id, ty) => x.scalars(id) % Size(ty, w)
    case Select(a, i) => EvalAt(a, Eval(i, x, w), x, w)
    case Unary(op, a) => FoldUnary(op, Eval(a, x, w), w)
    case Binary(op, a, b) => Fold(op, Eval(a, x, w), Eval(b, x, w), w)
  }

  /** The element at position `i`. */
  function EvalAt(a: ArrayTerm, i: nat, x: Assignment, w: nat): nat
    decreases a
  {
    match a
    case ArraySymbol(id) => x.arrays(id, i) % Pow2(w)
    case Store(b, j, v) => if Eval(j, x, w) == i then Eval(v, x, w) else EvalAt(b, i, x, w)
  }

  /** A value under construction. */
  datatype Internal =
    | Literal(v: nat)
    | Plain(term: Term)
    | Lazy(term: Term, v: nat, op: Opcode)

  function TermOf(arg: Internal): Term
  {
    match arg
    case Literal(v) => Const(v)
    case Plain(t) => t
    case Lazy(t, v, op) => Binary(op, t, Const(v))
  }

  function Value(arg: Internal, x: Assignment, w: nat): nat
  {
    Eval(TermOf(arg), x, w)
  }

  /** The operators the propagator takes for commutative monoids: a range of opcodes. */
  predicate InMonoidRange(op: Opcode)
  {
    op in {ADD, MUL, AND, OR, XOR, LSHL, LSHR, LAND, LOR}
  }

  predicate IsAnnihilator(op: Opcode, literal: nat)
  {
    (op == LAND && literal == 0) || (op == LOR && literal != 0)
  }

  function MakeLazy(op: Opcode, arg: Internal, literal: nat): Internal
    requires !arg.Literal?
  {
    Lazy(TermOf(arg), literal, op)
  }

  function Propagate(op: Opcode, arg: Internal, literal: nat, w: nat): Internal
    requires arg.Literal? || arg.Lazy?
  {
    match arg
    case Literal(v) => Literal(Fold(op, v, literal, w))
    case Lazy(t, v, _) => Lazy(t, Fold(op, v, literal, w), op)
  }

  function LazyApply(op: Opcode, arg: Internal, literal: nat, w: nat): Internal
  {
    if IsAnnihilator(op, literal) then Literal(literal)
    else if !(arg.Lazy? && arg.op == op) && !arg.Literal? then MakeLazy(op, arg, literal)
    else Propagate(op, arg, literal, w)
  }

  function EagerApply(op: Opcode, arg: Internal, literal: nat, w: nat): Internal
  {
    if arg.Literal? then Literal(Fold(op, arg.v, literal, w)) else Plain(Binary(op, TermOf(arg), Const(literal)))
  }

  function EagerApplyLeft(op: Opcode, literal: nat, arg: Internal, w: nat): Internal
  {
    if arg.Literal? then Literal(Fold(op, literal, arg.v, w)) else Plain(Binary(op, Const(literal), TermOf(arg)))
  }

  /** A binary operator on two values; a literal on the left changes sides when lazy. */
  function Apply(op: Opcode, u: Internal, v: Internal, w: nat): Internal
  {
    if u.Literal? then
      if InMonoidRange(op) then LazyApply(op, v, u.v, w) else EagerApplyLeft(op, u.v, v, w)
    else if v.Literal? then
      if InMonoidRange(op) then LazyApply(op, u, v.v, w) else EagerApply(op, u, v.v, w)
    else Plain(Binary(op, TermOf(u), TermOf(v)))
  }

  /** The propagator run over a whole expression. */
  function Simplify(e: Term, w: nat): Internal
  {
    match e
    case Const(v) => Literal(v)
    case Symbol(_, _) => Plain(e)
    case Select(_, _) => Plain(e)
    case Unary(op, a) => Plain(Unary(op, TermOf(Simplify(a, w))))
    case Binary(op, a, b) => Apply(op, Simplify(a, w), Simplify(b, w), w)
  }

  // ---- One operator ------------------------------------------------------------------------

  /** Where the order of operands matters but is not kept: a shift whose left side is a
      literal, or a literal shift of a pending shift. */
  predicate Misfolds(op: Opcode, u: Internal, v: Internal)
  {
    IsShift(op) && (u.Literal? || (v.Literal? && u.Lazy? && u.op == op))
  }

  /** Literal operands of Boolean operators are truth values. */
  predicate TruthOperands(op: Opcode, u: Internal, v: Internal)
  {
    op == LAND || op == LOR ==> (u.Literal? ==> u.v < 2) && (v.Literal? ==> v.v < 2)
  }

  /** The value of a pending operator. */
  lemma PendingValue(t: Term, v: nat, op: Opcode, x: Assignment, w: nat)
    ensures Value(Lazy(t, v, op), x, w) == Fold(op, Eval(t, x, w), v, w)
  {
    assert Eval(Const(v), x, w) == v;
  }

  lemma LazyApplyCorrect(op: Opcode, arg: Internal, literal: nat, x: Assignment, w: nat)
    requires InMonoidRange(op) && (op == LAND || op == LOR ==> literal < 2)
    requires IsShift(op) ==> !arg.Literal? && !(arg.Lazy? && arg.op == op)
    ensures Value(LazyApply(op, arg, literal, w), x, w) == Fold(op, Value(arg, x, w), literal, w)
  {
    PendingValue(TermOf(arg), literal, op, x, w);
    if arg.Lazy? && arg.op == op {
      PendingValue(arg.term, arg.v, op, x, w);
      PendingValue(arg.term, Fold(op, arg.v, literal, w), op, x, w);
      Associates(op, Eval(arg.term, x, w), arg.v, literal, w);
    }
  }

  lemma ApplyCorrect(op: Opcode, u: Internal, v: Internal, x: Assignment, w: nat)
    requires TruthOperands(op, u, v) && !Misfolds(op, u, v)
    ensures Value(Apply(op, u, v, w), x, w) == Fold(op, Value(u, x, w), Value(v, x, w), w)
  {
    if InMonoidRange(op) {
      if u.Literal? {
        LazyApplyCorrect(op, v, u.v, x, w);
        Commutes(op, u.v, Value(v, x, w), w);
      } else if v.Literal? {
        LazyApplyCorrect(op, u, v.v, x, w);
      }
    }
  }

  /** What the propagator can see of an operand before it folds. */
  datatype Shape = IsLiteral | IsPlain | IsLazy(op: Opcode)

  function ShapeOf(u: Internal): Shape
  {
    match u
    case Literal(_) => IsLiteral
    case Plain(_) => IsPlain
    case Lazy(_, _, op) => IsLazy(op)
  }

  predicate MisfoldsOn(op: Opcode, s: Shape, t: Shape)
  {
    IsShift(op) && (s == IsLiteral || (t == IsLiteral && s == IsLazy(op)))
  }

  /** Folding keeps the meaning of all operands of these shapes. */
  ghost predicate PreservesOn(op: Opcode, s: Shape, t: Shape, w: nat)
  {
    forall u, v, x: Assignment :: ShapeOf(u) == s && ShapeOf(v) == t && TruthOperands(op, u, v) ==>
      Value(Apply(op, u, v, w), x, w) == Fold(op, Value(u, x, w), Value(v, x, w), w)
  }

  function Ones(): Assignment { Assignment((id: nat) => 1, (id: nat, i: nat) => 1) }

  /** A value of any shape that is one when all symbols are. */
  function Sample(s: Shape): Internal
  {
    match s
    case IsLiteral => Literal(1)
    case IsPlain => Plain(Symbol(0, Word))
    case IsLazy(op) =>
      if op in {MUL, AND, LAND, EQL, LEQ, GEQ} then Lazy(Symbol(0, Word), 1, op)
      else if op == LSS then Lazy(Symbol(0, Word), 2, op)
      else Lazy(Symbol(0, Word), 0, op)
  }

  lemma SampleIsOne(s: Shape, w: nat)
    requires w > 0
    ensures ShapeOf(Sample(s)) == s && Value(Sample(s), Ones(), w) == 1
  {
    OneIsOne(w);
    if s.IsLazy? {
      var u := Sample(s);
      PendingValue(u.term, u.v, s.op, Ones(), w);
      OneFolded(s.op, u.v, w);
    }
  }

  lemma OneIsOne(w: nat)
    requires w > 0
    ensures Eval(Symbol(0, Word), Ones(), w) == 1 && Pow2(w) >= 2 && Wrap(1, w) == 1
  {
  }

  lemma OneFolded(op: Opcode, v: nat, w: nat)
    requires w > 0 && v == Sample(IsLazy(op)).v
    ensures Fold(op, 1, v, w) == 1
  {
    OneIsOne(w);
    assert Pow2(0) == 1;
    if op in {AND, OR, XOR} {
      BitOfOne(op, v, w);
    }
  }

  lemma {:induction false} BitwiseZero(op: Opcode, w: nat)
    requires op in {AND, OR, XOR}
    ensures Bitwise(op, 0, 0, w) == 0
  {
    if w > 0 {
      BitwiseZero(op, w - 1);
    }
  }

  lemma BitOfOne(op: Opcode, b: nat, w: nat)
    requires op in {AND, OR, XOR} && b == (if op == AND then 1 else 0) && w > 0
    ensures Bitwise(op, 1, b, w) == 1
  {
    BitwiseZero(op, w - 1);
  }

  lemma {:induction false} ShiftedZero(op: Opcode, b: nat, w: nat)
    requires IsShift(op)
    ensures Fold(op, 0, b, w) == 0
  {
    assert 0 * Pow2(b) == 0 && 0 / Pow2(b) == 0;
  }

  lemma ShiftedByZero(op: Opcode, w: nat)
    requires IsShift(op) && w > 0
    ensures Fold(op, 1, 0, w) == 1 && Fold(op, 1, 1, w) != 1
  {
    OneIsOne(w);
    assert Pow2(0) == 1 && Pow2(1) == 2;
    assert 2 % Pow2(w) != 1;
  }

  /** Zero shifted by one is zero, but the literal becomes the shift distance. */
  lemma LiteralLeftFails(op: Opcode, t: Shape, w: nat)
    requires IsShift(op) && w > 0
    ensures !PreservesOn(op, IsLiteral, t, w)
  {
    var u, v, x := Literal(0), Sample(t), Ones();
    SampleIsOne(t, w);
    ShiftedZero(op, 1, w);
    ShiftedByZero(op, w);
    ZeroLeft(op, v, x, w);
    assert Fold(op, Value(u, x, w), Value(v, x, w), w) == 0;
  }

  lemma ZeroLeft(op: Opcode, v: Internal, x: Assignment, w: nat)
    requires IsShift(op) && w > 0 && Value(v, x, w) == 1 && Fold(op, 1, 0, w) == 1
    requires v.Lazy? && v.op == op ==> v.v == 0
    requires v.Literal? ==> v.v == 1
    ensures Value(Apply(op, Literal(0), v, w), x, w) == 1
  {
    PendingValue(TermOf(v), 0, op, x, w);
    if v.Lazy? && v.op == op {
      ShiftedZero(op, 0, w);
      PendingValue(v.term, v.v, op, x, w);
    }
  }

  /** Two shifts by zero and by one shift by one, but the distances are folded to zero. */
  lemma PendingShiftFails(op: Opcode, w: nat)
    requires IsShift(op) && w > 0
    ensures !PreservesOn(op, IsLazy(op), IsLiteral, w)
  {
    var u, v, x := Lazy(Symbol(0, Word), 0, op), Literal(1), Ones();
    ShiftedZero(op, 1, w);
    ShiftedByZero(op, w);
    OneIsOne(w);
    PendingValue(u.term, 0, op, x, w);
    assert Apply(op, u, v, w) == Lazy(u.term, 0, op);
    assert Fold(op, Value(u, x, w), Value(v, x, w), w) != 1;
  }

  /** Folding is right on all operands of two shapes exactly when it does not misfold them. */
  lemma PreservesExactly(op: Opcode, s: Shape, t: Shape, w: nat)
    requires w > 0
    ensures PreservesOn(op, s, t, w) <==> !MisfoldsOn(op, s, t)
  {
    if MisfoldsOn(op, s, t) {
      if s == IsLiteral {
        LiteralLeftFails(op, t, w);
      } else {
        PendingShiftFails(op, w);
      }
    } else {
      forall u, v, x: Assignment | ShapeOf(u) == s && ShapeOf(v) == t && TruthOperands(op, u, v)
        ensures Value(Apply(op, u, v, w), x, w) == Fold(op, Value(u, x, w), Value(v, x, w), w)
      {
        ApplyCorrect(op, u, v, x, w);
      }
    }
  }

  // ---- Whole expressions ----------------------------------------------------------------------

  predicate HasType(e: Term, ty: Type, w: nat)
  {
    match e
    case Const(v) => v < Size(ty, w)
    case Symbol(_, t) => t == ty
    case Select(_, _) => ty == Word
    case Unary(LNOT, a) => ty == Boolean && HasType(a, Boolean, w)
    case Unary(_, a) => ty == Word && HasType(a, Word, w)
    case Binary(op, a, b) =>
      match op
      case LAND | LOR => ty == Boolean && HasType(a, Boolean, w) && HasType(b, Boolean, w)
      case EQL | NEQ | LSS | GTR | LEQ | GEQ => ty == Boolean && HasType(a, Word, w) && HasType(b, Word, w)
      case _ => ty == Word && HasType(a, Word, w) && HasType(b, Word, w)
  }

  /** No shift in the expression is ever folded on the wrong side. */
  predicate NeverMisfolds(e: Term, w: nat)
  {
    match e
    case Const(_) => true
    case Symbol(_, _) => true
    case Select(_, _) => true
    case Unary(_, a) => NeverMisfolds(a, w)
    case Binary(op, a, b) =>
      NeverMisfolds(a, w) && NeverMisfolds(b, w) && !Misfolds(op, Simplify(a, w), Simplify(b, w))
  }

  predicate WithoutShifts(e: Term)
  {
    match e
    case Const(_) => true
    case Symbol(_, _) => true
    case Select(_, _) => true
    case Unary(_, a) => WithoutShifts(a)
    case Binary(op, a, b) => !IsShift(op) && WithoutShifts(a) && WithoutShifts(b)
  }

  lemma {:induction false} WithoutShiftsNeverMisfolds(e: Term, w: nat)
    requires WithoutShifts(e)
    ensures NeverMisfolds(e, w)
  {
    match e
    case Const(_) =>
    case Symbol(_, _) =>
    case Select(_, _) =>
    case Unary(_, a) => WithoutShiftsNeverMisfolds(a, w);
    case Binary(_, a, b) =>
      WithoutShiftsNeverMisfolds(a, w);
      WithoutShiftsNeverMisfolds(b, w);
  }

  /** Literals of Boolean expressions stay truth values. */
  lemma {:induction false} TruthStays(e: Term, w: nat)
    requires HasType(e, Boolean, w)
    ensures var r := Simplify(e, w); r.Literal? ==> r.v < 2
  {
    match e
    case Const(_) =>
    case Symbol(_, _) =>
    case Select(_, _) =>
    case Unary(_, _) =>
    case Binary(op, a, b) =>
      if op == LAND || op == LOR {
        TruthStays(a, w);
        TruthStays(b, w);
      }
  }

  /** The simplified term means what the expression means, under every assignment. */
  lemma {:induction false} SimplifyCorrect(e: Term, ty: Type, x: Assignment, w: nat)
    requires HasType(e, ty, w) && NeverMisfolds(e, w)
    ensures Eval(TermOf(Simplify(e, w)), x, w) == Eval(e, x, w)
  {
    match e
    case Const(_) =>
    case Symbol(_, _) =>
    case Select(_, _) =>
    case Unary(op, a) => SimplifyCorrect(a, if op == LNOT then Boolean else Word, x, w);
    case Binary(op, a, b) =>
      var ty' := if op == LAND || op == LOR then Boolean else Word;
      SimplifyCorrect(a, ty', x, w);
      SimplifyCorrect(b, ty', x, w);
      if ty' == Boolean {
        TruthStays(a, w);
        TruthStays(b, w);
      }
      ApplyCorrect(op, Simplify(a, w), Simplify(b, w), x, w);
  }
}
