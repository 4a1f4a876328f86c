/** Programs composed eagerly and lazily, the iterator over a lazy power, and the check of two
    least fixed points, which looks for one power that takes a whole program. */
module LazyPrograms {
  import opened Arithmetic
  import opened PartialStrings
  import opened RefinementLaws
  import opened RefinementEncoding
  import opened ProgramPowers
  import opened LeastFixedPoints

  const WORD_SIZE: nat := 0x1_0000_0000

  // ---- Eager composition ------------------------------------------------------------------

  method Compose(op: Operator, x: PartialString, y: PartialString) returns (z: PartialString)
    requires Valid(x) && Valid(y)
    ensures z == Bowtie(op)(x, y) && Valid(z)
    ensures IsComposition(op, z, x, y)
  {
    BowtieComposes(op, x, y);
    match op
    case Comma => z := Sequential(x, y);
    case Bar => z := Concurrent(x, y);
  }

  lemma NextProduct(f: Composition, x: PartialString, Y: Program, j: nat, Z: Program)
    requires j < |Y|
    ensures (Z + RowProducts(f, x, Y[..j])) + [f(x, Y[j])] == Z + RowProducts(f, x, Y[..j + 1])
  {
    assert Y[..j + 1][..j] == Y[..j];
  }

  method ComposeRow(op: Operator, x: PartialString, Y: Program, Z: Program) returns (r: Program)
    requires Valid(x) && AllValid(Y)
    ensures r == Z + RowProducts(Bowtie(op), x, Y)
  {
    r := Z;
    for j := 0 to |Y|
      invariant r == Z + RowProducts(Bowtie(op), x, Y[..j])
    {
      var z := Compose(op, x, Y[j]);
      r := r + [z];
      NextProduct(Bowtie(op), x, Y, j, Z);
    }
    assert Y[..|Y|] == Y;
  }

  method ComposePrograms(op: Operator, X: Program, Y: Program) returns (r: Program)
    requires AllValid(X) && AllValid(Y)
    ensures r == Products(Bowtie(op), X, Y)
    ensures AreCompositions(op, r, X, Y)
  {
    ProductsCompose(op, X, Y);
    r := [];
    for i := 0 to |X|
      invariant r == Products(Bowtie(op), X[..i], Y)
    {
      r := ComposeRow(op, X[i], Y, r);
      assert X[..i + 1][..i] == X[..i];
    }
    assert X[..|X|] == X;
  }

  /** Nondeterministic choice. */
  method Choose(X: Program, Y: Program) returns (r: Program)
    ensures r == X + Y
  {
    r := [];
    for i := 0 to |X|
      invariant r == X[..i]
    {
      r := r + [X[i]];
    }
    for j := 0 to |Y|
      invariant r == X + Y[..j]
    {
      r := r + [Y[j]];
    }
  }

  /** A choice refines `Z` exactly when both its sides do. */
  lemma ChoiceIsJoin(X: Program, Y: Program, Z: Program)
    ensures ProgramRefines(X + Y, Z) <==> ProgramRefines(X, Z) && ProgramRefines(Y, Z)
  {
    if ProgramRefines(X + Y, Z) {
      forall x | x in X ensures RefinesSome(x, Z) { assert x in X + Y; }
      forall y | y in Y ensures RefinesSome(y, Z) { assert y in X + Y; }
    }
  }

  method MinLength(X: Program) returns (len: nat)
    requires 0 < |X| && forall x :: x in X ==> x.length < WORD_SIZE
    ensures forall x :: x in X ==> len <= x.length
    ensures exists x :: x in X && x.length == len
  {
    len := WORD_SIZE - 1;
    for i := 0 to |X|
      invariant forall j :: 0 <= j < i ==> len <= X[j].length
      invariant if i == 0 then len == WORD_SIZE - 1 else
        len == WORD_SIZE - 1 || exists j :: 0 <= j < i && X[j].length == len
    {
      if X[i].length < len {
        len := X[i].length;
      }
    }
    assert X[0] in X && len <= X[0].length;
  }

  method MaxLength(X: Program) returns (len: nat)
    requires 0 < |X|
    ensures forall x :: x in X ==> x.length <= len
    ensures exists x :: x in X && x.length == len
  {
    len := 0;
    for i := 0 to |X|
      invariant forall j :: 0 <= j < i ==> X[j].length <= len
      invariant len == 0 || exists j :: 0 <= j < i && X[j].length == len
    {
      if len < X[i].length {
        len := X[i].length;
      }
    }
    assert X[0] in X && X[0].length <= len;
  }

  // ---- Powers of machine words --------------------------------------------------------------

  /** `base` to the `exp`, with wrap-around, by squaring. */
  method UintPow(base: nat, exp: nat) returns (result: nat)
    requires base < WORD_SIZE && exp < WORD_SIZE
    ensures result == Pow(base, exp) % WORD_SIZE
  {
    var b: nat, e: nat := base, exp;
    result := 1;
    while e != 0
      invariant result < WORD_SIZE && b < WORD_SIZE
      invariant (result * Pow(b, e)) % WORD_SIZE == Pow(base, exp) % WORD_SIZE
    {
      SquareStep(result, b, e, WORD_SIZE);
      if e % 2 == 1 {
        result := (result * b) % WORD_SIZE;
      }
      e := e / 2;
      b := (b * b) % WORD_SIZE;
    }
  }

  lemma {:induction false} PowMod(a: nat, n: nat, m: nat)
    requires m > 0
    ensures Pow(a % m, n) % m == Pow(a, n) % m
    decreases n
  {
    if n > 0 {
      PowMod(a, n - 1, m);
      MulModBoth(a, Pow(a % m, n - 1), Pow(a, n - 1), m);
    }
  }

  lemma MulModBoth(a: nat, p: nat, q: nat, m: nat)
    requires m > 0 && p % m == q % m
    ensures ((a % m) * p) % m == (a * q) % m
  {
    ModMul(a, p, m);
    MulModRight(a, p, q, m);
  }

  lemma {:induction false} PowSquare(a: nat, n: nat)
    ensures Pow(a * a, n) == Pow(a, 2 * n)
    decreases n
  {
    if n > 0 {
      PowSquare(a, n - 1);
      assert Pow(a, 2 * n) == a * Pow(a, 2 * n - 1);
      assert Pow(a, 2 * n - 1) == a * Pow(a, 2 * n - 2);
      Reassociate(a, a, Pow(a, 2 * n - 2));
    }
  }

  /** One round of the loop keeps the product of result and remaining power. */
  lemma SquareStep(result: nat, b: nat, e: nat, m: nat)
    requires e > 0 && m > 0
    ensures var result' := if e % 2 == 1 then (result * b) % m else result;
      (result' * Pow((b * b) % m, e / 2)) % m == (result * Pow(b, e)) % m
  {
    var h := e / 2;
    var p, q := Pow((b * b) % m, h), Pow(b, 2 * h);
    PowMod(b * b, h, m);
    PowSquare(b, h);
    if e % 2 == 1 {
      assert e == 2 * h + 1;
      OddStep(result, b, p, q, m);
      assert Pow(b, e) == b * q;
    } else {
      MulModRight(result, p, q, m);
    }
  }

  lemma OddStep(result: nat, b: nat, p: nat, q: nat, m: nat)
    requires m > 0 && p % m == q % m
    ensures (((result * b) % m) * p) % m == (result * (b * q)) % m
  {
    Reassociate(result, b, q);
    MulModRight(result * b, p, q, m);
    ModMul(result * b, p, m);
  }

  lemma MulModRight(r: nat, p: nat, q: nat, m: nat)
    requires m > 0 && p % m == q % m
    ensures (r * p) % m == (r * q) % m
  {
    ModMul(p, r, m);
    ModMul(q, r, m);
    Commute(p, r);
    Commute(q, r);
  }

  // ---- Lazy powers ------------------------------------------------------------------------------

  /** The composition of `program` with itself, one factor per index. */
  class LazyProgram {
    const op: Operator
    const program: Program
    var vector: seq<nat>

    /** The state in which the next iterator starts from the beginning. */
    ghost predicate Rewound()
      reads this
    {
      vector == Zeros(|vector|) && |vector| > 0
    }

    constructor (op: Operator, program: Program)
      ensures this.op == op && this.program == program
      ensures Rewound() && |vector| == 1
    {
      this.op, this.program, this.vector := op, program, [0];
    }

    method Size() returns (size: nat)
      requires |program| < WORD_SIZE && |vector| < WORD_SIZE
      ensures size == Pow(|program|, |vector|) % WORD_SIZE
    {
      size := UintPow(|program|, |vector|);
    }

    /** One more factor. */
    method Extend()
      modifies this`vector
      ensures Rewound() && |vector| == |old(vector)| + 1
    {
      vector := seq(|vector|, _ => 0);
      vector := vector + [0];
    }
  }

  /** Hands out the strings of a lazy power, using the index vector of its owner. */
  class PartialStringIterator {
    const owner: LazyProgram
    var exhausted: bool

    constructor (owner: LazyProgram)
      ensures this.owner == owner && !exhausted
    {
      this.owner, this.exhausted := owner, false;
    }

    predicate HasNext()
      reads this, owner
    {
      !exhausted && owner.vector != []
    }

    method Reset()
      modifies owner`vector
      ensures owner.vector == Zeros(|old(owner.vector)|)
    {
      owner.vector := seq(|owner.vector|, _ => 0);
    }

    /** The string chosen by the current indexes; moves on to the next indexes. */
    method Next() returns (p: PartialString)
      requires HasNext() && AllValid(owner.program) && Digits(owner.vector, |owner.program|)
      modifies this`exhausted, owner`vector
      ensures p == Chosen(Bowtie(owner.op), owner.program, old(owner.vector)) && Valid(p)
      ensures owner.vector == Increment(old(owner.vector), |owner.program|)
      ensures exhausted <==> AllLast(old(owner.vector), |owner.program|)
    {
      p := ComposeChosen(owner.op, owner.program, owner.vector);
      exhausted := Advance();
    }

    /** Ripple-carry increment; was this the last vector? */
    method Advance() returns (isEnd: bool)
      modifies owner`vector
      ensures owner.vector == Increment(old(owner.vector), |owner.program|)
      ensures isEnd <==> AllLast(old(owner.vector), |owner.program|)
    {
      ghost var was, m := owner.vector, |owner.program|;
      isEnd := true;
      var i := 0;
      CarriedNothing(was, m);
      while i < |owner.vector| && isEnd
        invariant i <= |was| == |owner.vector|
        decreases |was| - i, isEnd
        invariant isEnd ==> Carried(owner.vector, was, m, i)
        invariant !isEnd ==> !AllLast(was, m) && owner.vector == Increment(was, m)
      {
        CarryOn(owner.vector, was, m, i);
        owner.vector := owner.vector[i := owner.vector[i] + 1];
        if |owner.program| == owner.vector[i] {
          owner.vector := owner.vector[i := 0];
          i := i + 1;
        } else {
          isEnd := false;
        }
      }
      if isEnd {
        CarriedAll(owner.vector, was, m);
      }
    }
  }

  /** The first `i` digits were last ones and are now zero. */
  ghost predicate Carried(v: seq<nat>, was: seq<nat>, m: nat, i: nat)
  {
    && i <= |was| == |v|
    && (forall k :: 0 <= k < i ==> was[k] + 1 == m && v[k] == 0)
    && (forall k :: i <= k < |v| ==> v[k] == was[k])
  }

  lemma CarriedNothing(was: seq<nat>, m: nat)
    ensures Carried(was, was, m, 0)
  {
  }

  lemma CarryOn(v: seq<nat>, was: seq<nat>, m: nat, i: nat)
    requires Carried(v, was, m, i) && i < |v|
    ensures v[i] + 1 == m ==> Carried(v[i := v[i] + 1][i := 0], was, m, i + 1)
    ensures v[i] + 1 != m ==> !AllLast(was, m) && v[i := v[i] + 1] == Increment(was, m)
  {
    if v[i] + 1 != m {
      CarryStops(v, was, m, i);
    }
  }

  lemma CarryStops(v: seq<nat>, was: seq<nat>, m: nat, i: nat)
    requires Carried(v, was, m, i) && i < |v| && was[i] + 1 != m
    ensures !AllLast(was, m) && v[i := v[i] + 1] == Increment(was, m)
  {
    IncrementCarries(was, m, i);
    IncrementFirst(was[i..], m);
    assert was[i..][1..] == was[i + 1..];
    CarriedDigits(v, was, m, i);
  }

  lemma CarriedDigits(v: seq<nat>, was: seq<nat>, m: nat, i: nat)
    requires Carried(v, was, m, i) && i < |v|
    ensures v[i := v[i] + 1] == Zeros(i) + ([was[i] + 1] + was[i + 1..])
  {
    var next, r := v[i := v[i] + 1], Zeros(i) + ([was[i] + 1] + was[i + 1..]);
    forall k | 0 <= k < |v| ensures next[k] == r[k] {
      assert k > i ==> r[k] == was[k];
    }
  }

  lemma IncrementFirst(v: seq<nat>, m: nat)
    requires v != [] && v[0] + 1 != m
    ensures Increment(v, m) == [v[0] + 1] + v[1..]
  {
  }

  lemma CarriedAll(v: seq<nat>, was: seq<nat>, m: nat)
    requires Carried(v, was, m, |was|)
    ensures AllLast(was, m) && v == Increment(was, m)
  {
    assert was[..|was|] == was && was[|was|..] == [];
    IncrementCarries(was, m, |was|);
  }

  lemma NextChosen(f: Composition, P: Program, v: seq<nat>, i: nat)
    requires Digits(v, |P|) && i < |v|
    ensures Chosen(f, P, v[..i + 1]) == f(Chosen(f, P, v[..i]), P[v[i]])
  {
    assert v[..i + 1][..i] == v[..i];
  }

  /** The composition from the left, starting from the empty string. */
  method ComposeChosen(op: Operator, P: Program, v: seq<nat>) returns (p: PartialString)
    requires AllValid(P) && Digits(v, |P|)
    ensures p == Chosen(Bowtie(op), P, v) && Valid(p)
  {
    p := EMPTY;
    EmptyValid();
    for i := 0 to |v|
      invariant p == Chosen(Bowtie(op), P, v[..i]) && Valid(p)
    {
      p := Compose(op, p, P[v[i]]);
      NextChosen(Bowtie(op), P, v, i);
    }
    assert v[..|v|] == v;
  }

  // ---- Checks over programs -------------------------------------------------------------------------

  /** The solver always answers, and never wrongly. */
  ghost predicate Decisive(oracle: seq<Constraint> -> Answer)
  {
    Trustworthy(oracle) && forall cs :: oracle(cs) != Unknown
  }

  /** The solver accepts some string of `Y` for `x`. */
  ghost predicate AcceptsSome(x: PartialString, Y: Program, oracle: seq<Constraint> -> Answer)
  {
    exists y :: y in Y && Accepts(x, y, oracle)
  }

  /** The answer of the check over programs, whatever the solver is like. */
  ghost predicate AcceptsProgram(X: Program, Y: Program, oracle: seq<Constraint> -> Answer)
  {
    forall x :: x in X ==> AcceptsSome(x, Y, oracle)
  }

  lemma AcceptsSomeExact(x: PartialString, Y: Program, oracle: seq<Constraint> -> Answer)
    requires Valid(x) && AllValid(Y)
    ensures Trustworthy(oracle) && AcceptsSome(x, Y, oracle) ==> RefinesSome(x, Y)
    ensures Decisive(oracle) ==> (AcceptsSome(x, Y, oracle) <==> RefinesSome(x, Y))
  {
    forall y | y in Y
      ensures Trustworthy(oracle) && Accepts(x, y, oracle) ==> Refines(x, y)
      ensures Decisive(oracle) ==> (Accepts(x, y, oracle) <==> Refines(x, y))
    {
      AcceptsExact(x, y, oracle);
    }
  }

  lemma OneMoreAccepted(X: Program, i: nat, Y: Program, oracle: seq<Constraint> -> Answer)
    requires i < |X| && AcceptsProgram(X[..i], Y, oracle)
    ensures AcceptsSome(X[i], Y, oracle) ==> AcceptsProgram(X[..i + 1], Y, oracle)
    ensures !AcceptsSome(X[i], Y, oracle) ==> !AcceptsProgram(X, Y, oracle)
  {
    assert X[i] in X && X[..i + 1] == X[..i] + [X[i]];
  }

  lemma AcceptsProgramExact(X: Program, Y: Program, oracle: seq<Constraint> -> Answer)
    requires AllValid(X) && AllValid(Y)
    ensures Trustworthy(oracle) && AcceptsProgram(X, Y, oracle) ==> ProgramRefines(X, Y)
    ensures Decisive(oracle) ==> (AcceptsProgram(X, Y, oracle) <==> ProgramRefines(X, Y))
  {
    forall x | x in X
      ensures Trustworthy(oracle) && AcceptsSome(x, Y, oracle) ==> RefinesSome(x, Y)
      ensures Decisive(oracle) ==> (AcceptsSome(x, Y, oracle) <==> RefinesSome(x, Y))
    {
      AcceptsSomeExact(x, Y, oracle);
    }
  }

  /** None of the strings handed out before the counter stands at `k` is accepted for `x`. */
  ghost predicate NoneBefore(x: PartialString, f: Composition, P: Program, n: nat, k: nat,
                             oracle: seq<Constraint> -> Answer)
  {
    forall v :: |v| == n && Digits(v, |P|) && Rank(v, |P|) < k ==> !Accepts(x, Chosen(f, P, v), oracle)
  }

  lemma OneMoreFails(x: PartialString, f: Composition, P: Program, v: seq<nat>, oracle: seq<Constraint> -> Answer)
    requires Digits(v, |P|) && NoneBefore(x, f, P, |v|, Rank(v, |P|), oracle) && !Accepts(x, Chosen(f, P, v), oracle)
    ensures NoneBefore(x, f, P, |v|, Rank(v, |P|) + 1, oracle)
  {
    forall w | |w| == |v| && Digits(w, |P|) && Rank(w, |P|) < Rank(v, |P|) + 1
      ensures !Accepts(x, Chosen(f, P, w), oracle)
    {
      if Rank(w, |P|) == Rank(v, |P|) {
        RankInjective(v, w, |P|);
      }
    }
  }

  lemma NoneAtAll(x: PartialString, f: Composition, P: Program, n: nat, oracle: seq<Constraint> -> Answer)
    requires Lawful(f) && AllValid(P) && P != [] && n >= 1 && NoneBefore(x, f, P, n, Pow(|P|, n), oracle)
    ensures !AcceptsSome(x, Power(f, P, n), oracle)
  {
    forall p | p in Power(f, P, n) ensures !Accepts(x, p, oracle) {
      PowerIsChosen(f, P, n, p);
      var v: seq<nat> :| ChosenBy(f, P, v, n, p);
      RankBelow(v, |P|);
    }
  }

  lemma ChosenAccepted(x: PartialString, f: Composition, P: Program, v: seq<nat>, oracle: seq<Constraint> -> Answer)
    requires Lawful(f) && AllValid(P) && Digits(v, |P|) && |v| >= 1 && Accepts(x, Chosen(f, P, v), oracle)
    ensures AcceptsSome(x, Power(f, P, |v|), oracle)
  {
    ChosenIsInPower(f, P, v, |v|, Chosen(f, P, v));
  }

  /** How far the iterator has come without an accepted string. */
  ghost predicate Scanned(x: PartialString, f: Composition, P: Program, n: nat, v: seq<nat>, exhausted: bool,
                          oracle: seq<Constraint> -> Answer)
  {
    && |v| == n && Digits(v, |P|) && (exhausted ==> v == Zeros(n))
    && NoneBefore(x, f, P, n, if exhausted then Pow(|P|, n) else Rank(v, |P|), oracle)
  }

  ghost function Left(P: Program, n: nat, v: seq<nat>, exhausted: bool): int
  {
    if exhausted then 0 else 1 + Pow(|P|, n) - Rank(v, |P|)
  }

  lemma ScanStarts(x: PartialString, f: Composition, P: Program, n: nat, oracle: seq<Constraint> -> Answer)
    requires P != []
    ensures Scanned(x, f, P, n, Zeros(n), false, oracle)
  {
    RankOfZeros(n, |P|);
  }

  lemma ScanGoesOn(x: PartialString, f: Composition, P: Program, n: nat, v: seq<nat>, oracle: seq<Constraint> -> Answer)
    requires Lawful(f) && AllValid(P) && P != [] && n >= 1 && Scanned(x, f, P, n, v, false, oracle)
    ensures Accepts(x, Chosen(f, P, v), oracle) ==> AcceptsSome(x, Power(f, P, n), oracle)
    ensures !Accepts(x, Chosen(f, P, v), oracle) ==>
      Scanned(x, f, P, n, Increment(v, |P|), AllLast(v, |P|), oracle)
    ensures 0 <= Left(P, n, Increment(v, |P|), AllLast(v, |P|)) < Left(P, n, v, false)
  {
    RankBelow(v, |P|);
    IncrementRank(v, |P|);
    RankBelow(Increment(v, |P|), |P|);
    if Accepts(x, Chosen(f, P, v), oracle) {
      ChosenAccepted(x, f, P, v, oracle);
    } else {
      OneMoreFails(x, f, P, v, oracle);
    }
  }

  lemma ScanEnds(x: PartialString, f: Composition, P: Program, n: nat, v: seq<nat>, oracle: seq<Constraint> -> Answer)
    requires Lawful(f) && AllValid(P) && P != [] && n >= 1 && Scanned(x, f, P, n, v, true, oracle)
    ensures !AcceptsSome(x, Power(f, P, n), oracle) && v == Zeros(n)
  {
    NoneAtAll(x, f, P, n, oracle);
  }

  class ProgramChecker {
    const refinement: Refinement

    constructor ()
      ensures fresh(refinement) && refinement.solver == []
    {
      refinement := new Refinement();
    }

    /** Does `x` refine a string of `Y`? */
    method CheckOne(x: PartialString, Y: Program, oracle: seq<Constraint> -> Answer) returns (r: bool)
      requires Valid(x) && AllValid(Y) && refinement.solver == []
      modifies refinement
      ensures refinement.solver == []
      ensures r <==> AcceptsSome(x, Y, oracle)
      ensures Trustworthy(oracle) && r ==> RefinesSome(x, Y)
      ensures Decisive(oracle) ==> (r <==> RefinesSome(x, Y))
    {
      AcceptsSomeExact(x, Y, oracle);
      for i := 0 to |Y|
        invariant refinement.solver == []
        invariant !AcceptsSome(x, Y[..i], oracle)
      {
        var ok := refinement.Check(x, Y[i], oracle);
        if ok {
          assert Y[i] in Y;
          return true;
        }
        assert Y[..i + 1] == Y[..i] + [Y[i]];
      }
      assert Y[..|Y|] == Y;
      return false;
    }

    method Check(X: Program, Y: Program, oracle: seq<Constraint> -> Answer) returns (r: bool)
      requires AllValid(X) && AllValid(Y) && refinement.solver == []
      modifies refinement
      ensures refinement.solver == []
      ensures r <==> AcceptsProgram(X, Y, oracle)
      ensures Trustworthy(oracle) && r ==> ProgramRefines(X, Y)
      ensures Decisive(oracle) ==> (r <==> ProgramRefines(X, Y))
    {
      AcceptsProgramExact(X, Y, oracle);
      for i := 0 to |X|
        invariant refinement.solver == []
        invariant AcceptsProgram(X[..i], Y, oracle)
      {
        assert X[i] in X;
        var ok := CheckOne(X[i], Y, oracle);
        OneMoreAccepted(X, i, Y, oracle);
        if !ok {
          return false;
        }
      }
      assert X[..|X|] == X;
      return true;
    }

    /** The check against the next string of the iterator. */
    method LazyTurn(x: PartialString, iter: PartialStringIterator, ghost n: nat, oracle: seq<Constraint> -> Answer)
      returns (ok: bool)
      requires Valid(x) && AllValid(iter.owner.program) && iter.HasNext() && refinement.solver == [] && n >= 1
      requires Scanned(x, Bowtie(iter.owner.op), iter.owner.program, n, iter.owner.vector, false, oracle)
      modifies refinement, iter`exhausted, iter.owner`vector
      ensures refinement.solver == []
      ensures ok ==>
        |iter.owner.vector| == n && AcceptsSome(x, Power(Bowtie(iter.owner.op), iter.owner.program, n), oracle)
      ensures !ok ==>
        Scanned(x, Bowtie(iter.owner.op), iter.owner.program, n, iter.owner.vector, iter.exhausted, oracle)
      ensures 0 <= Left(iter.owner.program, n, iter.owner.vector, iter.exhausted)
      ensures Left(iter.owner.program, n, iter.owner.vector, iter.exhausted)
           < Left(iter.owner.program, n, old(iter.owner.vector), false)
    {
      BowtieLawful(iter.owner.op);
      ScanGoesOn(x, Bowtie(iter.owner.op), iter.owner.program, n, iter.owner.vector, oracle);
      var y := iter.Next();
      ok := refinement.Check(x, y, oracle);
    }

    /** Does `x` refine a string of the lazy power? The iterator is left rewound. */
    method LazyCheckOne(x: PartialString, Y: LazyProgram, oracle: seq<Constraint> -> Answer) returns (r: bool)
      requires Valid(x) && AllValid(Y.program) && Y.program != [] && Y.Rewound()
      requires refinement.solver == []
      modifies refinement, Y`vector
      ensures refinement.solver == [] && Y.vector == old(Y.vector)
      ensures r <==> AcceptsSome(x, Power(Bowtie(Y.op), Y.program, |Y.vector|), oracle)
      ensures Trustworthy(oracle) && r ==> RefinesSome(x, Power(Bowtie(Y.op), Y.program, |Y.vector|))
      ensures Decisive(oracle) ==> (r <==> RefinesSome(x, Power(Bowtie(Y.op), Y.program, |Y.vector|)))
    {
      BowtieLawful(Y.op);
      PowerValid(Bowtie(Y.op), Y.program, |Y.vector|);
      AcceptsSomeExact(x, Power(Bowtie(Y.op), Y.program, |Y.vector|), oracle);
      var iter := new PartialStringIterator(Y);
      ScanStarts(x, Bowtie(Y.op), Y.program, |Y.vector|, oracle);
      r := Scan(x, iter, |Y.vector|, oracle);
    }

    /** Goes through the strings of the iterator until one is accepted, and rewinds it. */
    method Scan(x: PartialString, iter: PartialStringIterator, ghost n: nat, oracle: seq<Constraint> -> Answer)
      returns (r: bool)
      requires Valid(x) && AllValid(iter.owner.program) && iter.owner.program != [] && refinement.solver == [] && n >= 1
      requires !iter.exhausted
      requires Scanned(x, Bowtie(iter.owner.op), iter.owner.program, n, iter.owner.vector, false, oracle)
      modifies refinement, iter`exhausted, iter.owner`vector
      ensures refinement.solver == [] && iter.owner.vector == Zeros(n)
      ensures r <==> AcceptsSome(x, Power(Bowtie(iter.owner.op), iter.owner.program, n), oracle)
    {
      BowtieLawful(iter.owner.op);
      while iter.HasNext()
        invariant refinement.solver == []
        invariant Scanned(x, Bowtie(iter.owner.op), iter.owner.program, n, iter.owner.vector, iter.exhausted, oracle)
        decreases Left(iter.owner.program, n, iter.owner.vector, iter.exhausted)
      {
        var ok := LazyTurn(x, iter, n, oracle);
        if ok {
          iter.Reset();
          return true;
        }
      }
      ScanEnds(x, Bowtie(iter.owner.op), iter.owner.program, n, iter.owner.vector, oracle);
      return false;
    }

    /** The lazy check gives the answer of the check against the eagerly composed power, for
        every solver. */
    method LazyCheck(X: Program, Y: LazyProgram, oracle: seq<Constraint> -> Answer) returns (r: bool)
      requires AllValid(X) && AllValid(Y.program) && Y.program != [] && Y.Rewound()
      requires refinement.solver == []
      modifies refinement, Y`vector
      ensures refinement.solver == [] && Y.vector == old(Y.vector)
      ensures r <==> AcceptsProgram(X, Power(Bowtie(Y.op), Y.program, |Y.vector|), oracle)
      ensures Trustworthy(oracle) && r ==> ProgramRefines(X, Power(Bowtie(Y.op), Y.program, |Y.vector|))
      ensures Decisive(oracle) ==> (r <==> ProgramRefines(X, Power(Bowtie(Y.op), Y.program, |Y.vector|)))
    {
      ghost var target := Power(Bowtie(Y.op), Y.program, |Y.vector|);
      BowtieLawful(Y.op);
      PowerValid(Bowtie(Y.op), Y.program, |Y.vector|);
      AcceptsProgramExact(X, target, oracle);
      ghost var n := |Y.vector|;
      for i := 0 to |X|
        invariant refinement.solver == [] && |Y.vector| == n && Y.Rewound()
        invariant AcceptsProgram(X[..i], target, oracle)
      {
        assert X[i] in X;
        var ok := LazyCheckOne(X[i], Y, oracle);
        OneMoreAccepted(X, i, target, oracle);
        if !ok {
          return false;
        }
      }
      assert X[..|X|] == X;
      return true;
    }

    /** Is some power of `Y` refined by `X`? The search stops after finitely many powers.  A
        positive answer is right about the least fixed points, and so is a negative one when
        the lengths of the strings pass the test. */
    method CheckLfp(op: Operator, X: Program, Y: Program, oracle: seq<Constraint> -> Answer) returns (r: bool)
      requires AllValid(X) && AllValid(Y) && X != [] && Y != []
      requires forall y :: y in Y ==> 0 < y.length < WORD_SIZE
      requires refinement.solver == []
      modifies refinement
      ensures refinement.solver == []
      ensures Trustworthy(oracle) && r ==> RefinesSomePower(Bowtie(op), X, Y)
      ensures Decisive(oracle) ==> (r <==> RefinesSomePower(Bowtie(op), X, Y))
      ensures Trustworthy(oracle) && r ==> LfpRefines(Bowtie(op), X, Y)
      ensures Decisive(oracle) && OneSplit(Lengths(X), Lengths(Y)) ==> (r <==> LfpRefines(Bowtie(op), X, Y))
    {
      var longest := MaxLength(X);
      var shortest := MinLength(Y);
      r := CheckPowers(op, X, Y, longest / shortest, oracle);
      PowersDecide(op, X, Y, longest, shortest);
      AnswerAgrees(op, X, Y);
    }

    /** The same search over eagerly composed powers. */
    method CheckPowersEagerly(op: Operator, X: Program, Y: Program, j: nat, oracle: seq<Constraint> -> Answer)
      returns (r: bool)
      requires AllValid(X) && AllValid(Y) && refinement.solver == []
      modifies refinement
      ensures refinement.solver == []
      ensures r <==> !AcceptsNone(Bowtie(op), X, Y, j + 1, oracle)
      ensures Trustworthy(oracle) && r ==> !NoPowerUpTo(Bowtie(op), X, Y, j + 1)
      ensures Decisive(oracle) ==> (r <==> !NoPowerUpTo(Bowtie(op), X, Y, j + 1))
    {
      BowtieLawful(op);
      EagerPowers(op, Y);
      r := SearchEagerly(op, X, Y, j, oracle, PowersOf(Bowtie(op), Y));
      AcceptsNoneExact(op, X, Y, j + 1, oracle);
    }

    /** The search, for any sequence of programs that starts with `Y` and goes on by composing
        with `Y`. */
    method SearchEagerly(op: Operator, X: Program, Y: Program, j: nat, oracle: seq<Constraint> -> Answer,
                         ghost powers: nat -> Program) returns (r: bool)
      requires AllValid(X) && AllValid(Y) && refinement.solver == [] && IsPowers(powers, Bowtie(op), Y)
      modifies refinement
      ensures refinement.solver == []
      ensures r <==> !NoneUpTo(AcceptedPowers(X, powers, oracle), j + 1)
    {
      var K := Y;
      for k := 0 to j + 1
        invariant refinement.solver == [] && K == powers(k + 1)
        invariant NoneUpTo(AcceptedPowers(X, powers, oracle), k)
      {
        var ok := Check(X, K, oracle);
        OneMore(AcceptedPowers(X, powers, oracle), k, j + 1);
        if ok {
          return true;
        }
        K := ComposePrograms(op, K, Y);
      }
      return false;
    }

    /** The powers from the first to the `j + 1`st. */
    method CheckPowers(op: Operator, X: Program, Y: Program, j: nat, oracle: seq<Constraint> -> Answer)
      returns (r: bool)
      requires AllValid(X) && AllValid(Y) && Y != [] && refinement.solver == []
      modifies refinement
      ensures refinement.solver == []
      ensures r <==> !AcceptsNone(Bowtie(op), X, Y, j + 1, oracle)
      ensures Trustworthy(oracle) && r ==> !NoPowerUpTo(Bowtie(op), X, Y, j + 1)
      ensures Decisive(oracle) ==> (r <==> !NoPowerUpTo(Bowtie(op), X, Y, j + 1))
    {
      r := SearchLazily(op, X, Y, j, oracle, PowersOf(Bowtie(op), Y));
      AcceptsNoneExact(op, X, Y, j + 1, oracle);
    }

    method SearchLazily(op: Operator, X: Program, Y: Program, j: nat, oracle: seq<Constraint> -> Answer,
                        ghost powers: nat -> Program) returns (r: bool)
      requires AllValid(X) && AllValid(Y) && Y != [] && refinement.solver == [] && powers == PowersOf(Bowtie(op), Y)
      modifies refinement
      ensures refinement.solver == []
      ensures r <==> !NoneUpTo(AcceptedPowers(X, powers, oracle), j + 1)
    {
      var K := new LazyProgram(op, Y);
      for k := 0 to j + 1
        invariant refinement.solver == [] && K.op == op && K.program == Y && K.Rewound() && |K.vector| == k + 1
        invariant NoneUpTo(AcceptedPowers(X, powers, oracle), k)
      {
        var ok := CheckOnePower(X, K, oracle, powers);
        OneMore(AcceptedPowers(X, powers, oracle), k, j + 1);
        if ok {
          return true;
        }
        K.Extend();
      }
      return false;
    }

    method CheckOnePower(X: Program, K: LazyProgram, oracle: seq<Constraint> -> Answer, ghost powers: nat -> Program)
      returns (r: bool)
      requires AllValid(X) && AllValid(K.program) && K.program != [] && K.Rewound() && refinement.solver == []
      requires powers == PowersOf(Bowtie(K.op), K.program)
      modifies refinement, K`vector
      ensures refinement.solver == [] && K.vector == old(K.vector)
      ensures r <==> AcceptsProgram(X, powers(|K.vector|), oracle)
    {
      r := LazyCheck(X, K, oracle);
    }
  }

  /** The powers that are tried are enough. */
  lemma PowersDecide(op: Operator, X: Program, Y: Program, longest: nat, shortest: nat)
    requires AllValid(X) && AllValid(Y) && X != [] && shortest > 0
    requires forall x :: x in X ==> x.length <= longest
    requires forall y :: y in Y ==> shortest <= y.length
    ensures NoPowerUpTo(Bowtie(op), X, Y, longest / shortest + 1) <==> !RefinesSomePower(Bowtie(op), X, Y)
  {
    BowtieLawful(op);
    EnoughPowers(Bowtie(op), X, Y, longest / shortest + 1, longest, shortest);
  }

  /** What the search for one power says about the least fixed points. */
  lemma AnswerAgrees(op: Operator, X: Program, Y: Program)
    requires AllValid(X) && AllValid(Y) && Positive(Lengths(Y))
    ensures RefinesSomePower(Bowtie(op), X, Y) ==> LfpRefines(Bowtie(op), X, Y)
    ensures OneSplit(Lengths(X), Lengths(Y)) ==> Agrees(Bowtie(op), X, Y)
  {
    BowtieLawful(op);
    OnePowerSuffices(Bowtie(op), X, Y);
    if OneSplit(Lengths(X), Lengths(Y)) {
      OneSplitAgrees(Bowtie(op), X, Y);
    }
  }

  /** None of the first `k` powers of `Y` is accepted for `X`. */
  ghost predicate AcceptsNone(f: Composition, X: Program, Y: Program, k: nat, oracle: seq<Constraint> -> Answer)
  {
    NoneUpTo(AcceptedPowers(X, PowersOf(f, Y), oracle), k)
  }

  ghost predicate NoneUpTo(accepted: nat -> bool, k: nat)
  {
    forall n: nat :: 1 <= n <= k ==> !accepted(n)
  }

  ghost function PowersOf(f: Composition, Y: Program): nat -> Program
  {
    (n: nat) => Power(f, Y, n)
  }

  ghost function AcceptedPowers(X: Program, powers: nat -> Program, oracle: seq<Constraint> -> Answer): nat -> bool
  {
    (n: nat) => AcceptsProgram(X, powers(n), oracle)
  }

  lemma OneMore(accepted: nat -> bool, k: nat, last: nat)
    requires NoneUpTo(accepted, k) && k < last
    ensures !accepted(k + 1) ==> NoneUpTo(accepted, k + 1)
    ensures accepted(k + 1) ==> !NoneUpTo(accepted, last)
  {
  }

  /** All powers of `Y`, each made from the one before. */
  ghost predicate IsPowers(powers: nat -> Program, f: Composition, Y: Program)
  {
    && powers(1) == Y
    && (forall n: nat :: n >= 1 ==> AllValid(powers(n)))
    && (forall n: nat :: n >= 1 ==> powers(n + 1) == Products(f, powers(n), Y))
  }

  lemma EagerPowers(op: Operator, Y: Program)
    requires AllValid(Y)
    ensures IsPowers(PowersOf(Bowtie(op), Y), Bowtie(op), Y)
  {
    BowtieLawful(op);
    ArePowers(Bowtie(op), Y);
  }

  lemma ArePowers(f: Composition, Y: Program)
    requires Lawful(f) && AllValid(Y)
    ensures IsPowers(PowersOf(f, Y), f, Y)
  {
    forall n: nat | n >= 1 ensures AllValid(PowersOf(f, Y)(n)) {
      PowerValid(f, Y, n);
    }
    PowersUnfold(f, Y);
  }

  lemma PowersUnfold(f: Composition, Y: Program)
    ensures PowersOf(f, Y)(1) == Y
    ensures forall n: nat :: n >= 1 ==> PowersOf(f, Y)(n + 1) == Products(f, PowersOf(f, Y)(n), Y)
  {
  }

  lemma AcceptsNoneExact(op: Operator, X: Program, Y: Program, k: nat, oracle: seq<Constraint> -> Answer)
    requires AllValid(X) && AllValid(Y)
    ensures Trustworthy(oracle) && NoPowerUpTo(Bowtie(op), X, Y, k) ==> AcceptsNone(Bowtie(op), X, Y, k, oracle)
    ensures Decisive(oracle) ==> (AcceptsNone(Bowtie(op), X, Y, k, oracle) <==> NoPowerUpTo(Bowtie(op), X, Y, k))
  {
    forall n | 1 <= n <= k
      ensures Trustworthy(oracle) && AcceptedPowers(X, PowersOf(Bowtie(op), Y), oracle)(n) ==>
        RefinesPower(Bowtie(op), X, Y, n)
      ensures Decisive(oracle) ==>
        (AcceptedPowers(X, PowersOf(Bowtie(op), Y), oracle)(n) <==> RefinesPower(Bowtie(op), X, Y, n))
    {
      BowtieLawful(op);
      PowerValid(Bowtie(op), Y, n);
      AcceptsProgramExact(X, Power(Bowtie(op), Y, n), oracle);
    }
  }
}
