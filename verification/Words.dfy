/** Operators on machine words of `w` bits and on truth values, both as natural numbers. */
module Words {
  import opened Arithmetic

  datatype Opcode =
    | SUB | ADD | MUL | AND | OR | XOR | LSHL | LSHR | LAND | LOR
    | EQL | LSS | GTR | NEQ | LEQ | GEQ

  function Pow2(w: nat): (p: nat)
    ensures p > 0
  {
    if w == 0 then 1 else 2 * Pow2(w - 1)
  }

  function Truth(b: bool): (v: nat)
    ensures v < 2
  {
    if b then 1 else 0
  }

  function BitOp(op: Opcode, a: nat, b: nat): (v: nat)
    ensures v < 2
  {
    match op
    case AND => Truth(a == 1 && b == 1)
    case OR => Truth(a == 1 || b == 1)
    case _ => Truth(a != b)
  }

  /** Bit by bit, least significant bit first. */
  function Bitwise(op: Opcode, a: nat, b: nat, w: nat): nat
  {
    if w == 0 then 0 else BitOp(op, a % 2, b % 2) + 2 * Bitwise(op, a / 2, b / 2, w - 1)
  }

  /** Reduced to `w` bits. */
  function Wrap(x: int, w: nat): (v: nat)
    ensures v < Pow2(w)
  {
    x % Pow2(w)
  }

  function Quotient(a: nat, d: nat): nat
    requires d > 0
  {
    a / d
  }

  function ShiftRight(a: nat, b: nat): nat
  {
    Quotient(a, Pow2(b))
  }

  function Fold(op: Opcode, a: nat, b: nat, w: nat): nat
  {
    match op
    case SUB => Wrap(a - b, w)
    case ADD => Wrap(a + b, w)
    case MUL => Wrap(a * b, w)
    case AND | OR | XOR => Bitwise(op, a, b, w)
    case LSHL => Wrap(a * Pow2(b), w)
    case LSHR => ShiftRight(a, b)
    case LAND => Truth(a != 0 && b != 0)
    case LOR => Truth(a != 0 || b != 0)
    case EQL => Truth(a == b)
    case LSS => Truth(a < b)
    case GTR => Truth(a > b)
    case NEQ => Truth(a != b)
    case LEQ => Truth(a <= b)
    case GEQ => Truth(a >= b)
  }

  predicate IsShift(op: Opcode)
  {
    op == LSHL || op == LSHR
  }

  /** The operators that are commutative and associative. */
  predicate IsMonoid(op: Opcode)
  {
    op in {ADD, MUL, AND, OR, XOR, LAND, LOR}
  }

  // ---- Monoid laws --------------------------------------------------------------------------

  lemma {:induction false} BitwiseCommutes(op: Opcode, a: nat, b: nat, w: nat)
    ensures Bitwise(op, a, b, w) == Bitwise(op, b, a, w)
  {
    if w > 0 {
      BitwiseCommutes(op, a / 2, b / 2, w - 1);
    }
  }

  lemma BitwiseDigits(op: Opcode, a: nat, b: nat, w: nat)
    requires w > 0
    ensures Bitwise(op, a, b, w) % 2 == BitOp(op, a % 2, b % 2)
    ensures Bitwise(op, a, b, w) / 2 == Bitwise(op, a / 2, b / 2, w - 1)
  {
    FirstDigit(BitOp(op, a % 2, b % 2), Bitwise(op, a / 2, b / 2, w - 1));
  }

  lemma FirstDigit(d: nat, rest: nat)
    requires d < 2
    ensures (d + 2 * rest) % 2 == d && (d + 2 * rest) / 2 == rest
  {
  }

  lemma BitOpAssociates(op: Opcode, a: nat, b: nat, c: nat)
    requires a < 2 && b < 2 && c < 2
    ensures BitOp(op, BitOp(op, a, b), c) == BitOp(op, a, BitOp(op, b, c))
  {
  }

  lemma {:induction false} BitwiseAssociates(op: Opcode, a: nat, b: nat, c: nat, w: nat)
    ensures Bitwise(op, Bitwise(op, a, b, w), c, w) == Bitwise(op, a, Bitwise(op, b, c, w), w)
  {
    if w > 0 {
      BitwiseDigits(op, a, b, w);
      BitwiseDigits(op, b, c, w);
      BitOpAssociates(op, a % 2, b % 2, c % 2);
      BitwiseAssociates(op, a / 2, b / 2, c / 2, w - 1);
    }
  }

  lemma Commutes(op: Opcode, a: nat, b: nat, w: nat)
    requires IsMonoid(op)
    ensures Fold(op, a, b, w) == Fold(op, b, a, w)
  {
    match op
    case AND | OR | XOR => BitwiseCommutes(op, a, b, w);
    case MUL => Commute(a, b);
    case _ =>
  }

  lemma Associates(op: Opcode, a: nat, b: nat, c: nat, w: nat)
    requires IsMonoid(op)
    ensures Fold(op, Fold(op, a, b, w), c, w) == Fold(op, a, Fold(op, b, c, w), w)
  {
    match op
    case ADD => AddAssociative(a, b, c, Pow2(w));
    case MUL => MulAssociative(a, b, c, Pow2(w));
    case AND | OR | XOR => BitwiseAssociates(op, a, b, c, w);
    case _ =>
  }
}
