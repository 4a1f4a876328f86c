/** Laws that tell the operators on machine words apart. */
module WordLaws {
  import opened Arithmetic
  import opened Words
  import opened ConstantPropagation

  /** A word of `w` bits. */
  predicate IsWord(a: nat, w: nat)
  {
    a < Pow2(w)
  }

  // ---- Arithmetic --------------------------------------------------------------------------

  /** Multiples of the modulus do not matter, whatever their sign. */
  lemma ModShift(a: nat, q: int, m: nat)
    requires a < m
    ensures (a - m * q) % m == a
  {
    var x := a - m * q;
    var d := x / m;
    assert x == m * d + x % m;
    SplitProduct(m, d, q);
    SmallMultiple(m, d + q);
  }

  lemma SplitProduct(m: int, d: int, q: int)
    ensures m * (d + q) == m * d + m * q
  {
  }

  lemma SmallMultiple(m: int, k: int)
    requires 0 - m < m * k < m
    ensures m * k == 0
  {
    assert k >= 1 ==> m * k >= m * 1;
    assert k <= -1 ==> m * k <= m * -1;
  }

  /** Subtraction undoes addition. */
  lemma SubUndoesAdd(a: nat, b: nat, w: nat)
    requires IsWord(a, w)
    ensures Fold(SUB, Fold(ADD, a, b, w), b, w) == a
  {
    var m := Pow2(w);
    var q, r := Divide(a + b, m);
    assert r - b == a - m * q;
    ModShift(a, q, m);
  }

  lemma AddZero(a: nat, w: nat)
    requires IsWord(a, w)
    ensures Fold(ADD, a, 0, w) == a && Fold(SUB, a, 0, w) == a && Fold(SUB, a, a, w) == 0
  {
    SmallWraps(a, Pow2(w));
    SmallWraps(0, Pow2(w));
  }

  lemma MulUnits(a: nat, w: nat)
    requires IsWord(a, w)
    ensures Fold(MUL, a, 0, w) == 0 && Fold(MUL, a, 1, w) == a
  {
    SmallWraps(a, Pow2(w));
    SmallWraps(0, Pow2(w));
    TimesUnits(a);
  }

  lemma TimesUnits(a: nat)
    ensures a * 0 == 0 && a * 1 == a
  {
  }

  /** Multiplication distributes over addition. */
  lemma MulDistributes(a: nat, b: nat, c: nat, w: nat)
    ensures Fold(MUL, a, Fold(ADD, b, c, w), w) == Fold(ADD, Fold(MUL, a, b, w), Fold(MUL, a, c, w), w)
  {
    var m := Pow2(w);
    ModMul(b + c, a, m);
    Commute((b + c) % m, a);
    Commute(b + c, a);
    Distribute(a, b, c);
    ModAdd(a * b, (a * c) % m, m);
    ModAdd(a * c, a * b, m);
  }

  /** The complement to zero, and the complement bit by bit. */
  lemma Complements(a: nat, w: nat)
    requires IsWord(a, w)
    ensures Fold(ADD, a, FoldUnary(NEG, a, w), w) == 0
    ensures a + FoldUnary(NOT, a, w) == Pow2(w) - 1
  {
    var m := Pow2(w);
    NegIs(a, m);
    ModShift(m - 1 - a, 1, m);
    if a > 0 {
      ModDrop(0, 1, m);
    }
  }

  lemma NegIs(a: nat, m: nat)
    requires a < m
    ensures (0 - a) % m == if a == 0 then 0 else m - a
  {
    if a > 0 {
      ModShift(m - a, 1, m);
    }
  }

  // ---- Shifts ---------------------------------------------------------------------------------

  /** Each step to the left doubles. */
  lemma ShiftLeftDoubles(a: nat, b: nat, w: nat)
    ensures Fold(LSHL, a, b + 1, w) == Fold(ADD, Fold(LSHL, a, b, w), Fold(LSHL, a, b, w), w)
  {
    var m, p := Pow2(w), a * Pow2(b);
    DoubledProduct(a, Pow2(b));
    ModTwice(p, m);
  }

  lemma ShiftLeftByZero(a: nat, w: nat)
    requires IsWord(a, w)
    ensures Fold(LSHL, a, 0, w) == a && Fold(LSHL, a, 1, w) == Fold(ADD, a, a, w)
  {
    TimesUnits(a);
    SmallWraps(a, Pow2(w));
    ShiftLeftDoubles(a, 0, w);
  }

  lemma DoubledProduct(a: nat, p: nat)
    ensures a * (2 * p) == a * p + a * p
  {
    Distribute(a, p, p);
    assert 2 * p == p + p;
  }

  lemma ModTwice(p: nat, m: nat)
    requires m > 0
    ensures (p % m + p % m) % m == (p + p) % m
  {
    ModAdd(p, p % m, m);
    ModAdd(p, p, m);
  }

  /** A shift to the right is the largest number that the shift to the left does not take
      beyond `a`. */
  lemma ShiftRightBounds(a: nat, b: nat, w: nat)
    ensures var r := Fold(LSHR, a, b, w); r * Pow2(b) <= a < (r + 1) * Pow2(b)
  {
    var q, r := Divide(a, Pow2(b));
    Commute(q, Pow2(b));
    OneMoreTime(q + 1, Pow2(b));
  }

  /** Without overflow the shifts are inverse to each other. */
  lemma ShiftsCancel(a: nat, b: nat, w: nat)
    requires IsWord(a * Pow2(b), w)
    ensures Fold(LSHR, Fold(LSHL, a, b, w), b, w) == a
  {
    SmallWraps(a * Pow2(b), Pow2(w));
    ExactQuotient(a, Pow2(b));
  }

  lemma ExactQuotient(a: nat, p: nat)
    requires p > 0
    ensures Quotient(a * p, p) == a
  {
    Commute(a, p);
    var q, r := Divide(a * p, p);
    SameDigit(r, q, 0, a, p);
  }

  // ---- Comparisons -------------------------------------------------------------------------------

  ghost predicate Reaches(a: nat, c: nat, b: nat)
  {
    a + c == b
  }

  lemma LessOrEqual(a: nat, b: nat, w: nat)
    ensures Fold(LEQ, a, b, w) == 1 <==> exists c: nat :: Reaches(a, c, b)
    ensures Fold(LEQ, a, b, w) == 0 || Fold(LEQ, a, b, w) == 1
  {
    if a <= b {
      assert Reaches(a, b - a, b);
    }
  }

  /** The others in terms of this one. */
  lemma ComparisonsFollow(a: nat, b: nat, w: nat)
    ensures Fold(GEQ, a, b, w) == Fold(LEQ, b, a, w)
    ensures Fold(EQL, a, b, w) == Fold(LAND, Fold(LEQ, a, b, w), Fold(LEQ, b, a, w), w)
    ensures Fold(NEQ, a, b, w) == FoldUnary(LNOT, Fold(EQL, a, b, w), w)
    ensures Fold(LSS, a, b, w) == FoldUnary(LNOT, Fold(GEQ, a, b, w), w)
    ensures Fold(GTR, a, b, w) == FoldUnary(LNOT, Fold(LEQ, a, b, w), w)
  {
  }

  // ---- Truth values --------------------------------------------------------------------------------

  lemma TruthTables(a: nat, b: nat, w: nat)
    requires a < 2 && b < 2
    ensures Fold(LAND, a, b, w) == a * b
    ensures Fold(LOR, a, b, w) == a + b - a * b
    ensures FoldUnary(LNOT, a, w) == 1 - a
  {
  }

  // ---- Bits ----------------------------------------------------------------------------------------

  /** Bitwise operators add up: the sum is the bits that differ and twice the bits in common, and
      the bits of either are the bits that differ and the bits in common. */
  lemma {:induction false} BitsAddUp(a: nat, b: nat, w: nat)
    requires IsWord(a, w) && IsWord(b, w)
    ensures Fold(XOR, a, b, w) + 2 * Fold(AND, a, b, w) == a + b
    ensures Fold(OR, a, b, w) == Fold(XOR, a, b, w) + Fold(AND, a, b, w)
    decreases w
  {
    if w > 0 {
      HalfIsWord(a, w);
      HalfIsWord(b, w);
      BitsAddUp(a / 2, b / 2, w - 1);
      OneBit(a % 2, b % 2);
      BitwiseStep(AND, a, b, w);
      BitwiseStep(OR, a, b, w);
      BitwiseStep(XOR, a, b, w);
    }
  }

  lemma BitwiseStep(op: Opcode, a: nat, b: nat, w: nat)
    requires op in {AND, OR, XOR} && w > 0
    ensures Fold(op, a, b, w) == BitOp(op, a % 2, b % 2) + 2 * Fold(op, a / 2, b / 2, w - 1)
  {
  }

  lemma HalfIsWord(a: nat, w: nat)
    requires w > 0 && IsWord(a, w)
    ensures IsWord(a / 2, w - 1)
  {
  }

  lemma OneBit(a: nat, b: nat)
    requires a < 2 && b < 2
    ensures BitOp(XOR, a, b) + 2 * BitOp(AND, a, b) == a + b
    ensures BitOp(OR, a, b) == BitOp(XOR, a, b) + BitOp(AND, a, b)
  {
  }

  /** Bits in common with nothing, and with itself. */
  lemma {:induction false} BitUnits(a: nat, w: nat)
    requires IsWord(a, w)
    ensures Fold(AND, a, a, w) == a && Fold(AND, a, 0, w) == 0
    decreases w
  {
    if w > 0 {
      HalfIsWord(a, w);
      BitUnits(a / 2, w - 1);
      BitwiseStep(AND, a, a, w);
      BitwiseStep(AND, a, 0, w);
    }
  }
}
