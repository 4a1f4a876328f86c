/** Programs as finite lists of partial strings, their compositions and powers, and the
    enumeration of a power by a little-endian counter of indexes. */
module ProgramPowers {
  import opened Arithmetic
  import opened PartialStrings
  import opened RefinementLaws

  type Program = seq<PartialString>

  datatype Operator = Comma | Bar

  type Composition = (PartialString, PartialString) -> PartialString

  function Bowtie(op: Operator): Composition
  {
    match op
    case Comma => Seq
    case Bar => Par
  }

  /** What the operators are: sequential composition adds to both orders all pairs across,
      concurrent composition adds none; labels are those of `x` and then those of `y`. */
  ghost predicate IsComposition(op: Operator, p: PartialString, x: PartialString, y: PartialString)
  {
    match op
    case Comma => IsChain(p, x, y)
    case Bar => IsUnion(p, x, y)
  }

  lemma BowtieComposes(op: Operator, x: PartialString, y: PartialString)
    requires Valid(x) && Valid(y)
    ensures IsComposition(op, Bowtie(op)(x, y), x, y) && Valid(Bowtie(op)(x, y))
  {
    match op
    case Comma => SeqIsChain(x, y);
    case Bar => ParIsUnion(x, y);
  }

  /** The strings of `P` are the compositions of one string each of `X` and `Y`, and all of
      them. */
  ghost predicate AreCompositions(op: Operator, P: Program, X: Program, Y: Program)
  {
    && (forall p :: p in P ==> exists x, y :: x in X && y in Y && IsComposition(op, p, x, y))
    && (forall x, y :: x in X && y in Y ==> exists p :: p in P && IsComposition(op, p, x, y))
  }

  lemma ProductsCompose(op: Operator, X: Program, Y: Program)
    requires AllValid(X) && AllValid(Y)
    ensures AreCompositions(op, Products(Bowtie(op), X, Y), X, Y)
  {
    var P := Products(Bowtie(op), X, Y);
    forall p | p in P ensures exists x, y :: x in X && y in Y && IsComposition(op, p, x, y) {
      ProductsMembers(Bowtie(op), X, Y, p);
      var x, y :| x in X && y in Y && p == Bowtie(op)(x, y);
      BowtieComposes(op, x, y);
    }
    forall x, y | x in X && y in Y ensures exists p :: p in P && IsComposition(op, p, x, y) {
      ProductsMembers(Bowtie(op), X, Y, Bowtie(op)(x, y));
      BowtieComposes(op, x, y);
    }
  }

  // ---- The laws both compositions share -------------------------------------------------

  ghost predicate AddsEvents(f: Composition)
  {
    forall x, y {:trigger f(x, y)} :: Valid(x) && Valid(y) ==> Valid(f(x, y)) && f(x, y).length == x.length + y.length
  }

  ghost predicate EmptyFirst(f: Composition)
  {
    forall x {:trigger f(EMPTY, x)} :: Valid(x) ==> f(EMPTY, x) == x
  }

  ghost predicate Monotone(f: Composition)
  {
    forall x, y, x', y' {:trigger f(x, y), f(x', y')} ::
      Valid(x) && Valid(y) && Valid(x') && Valid(y') && Refines(x, x') && Refines(y, y') ==>
        Refines(f(x, y), f(x', y'))
  }

  /** Regrouping is a refinement. */
  ghost predicate Associative(f: Composition)
  {
    forall x, y, z {:trigger f(x, f(y, z))} :: Valid(x) && Valid(y) && Valid(z) ==>
      Refines(f(x, f(y, z)), f(f(x, y), z))
  }

  ghost predicate Lawful(f: Composition)
  {
    AddsEvents(f) && EmptyFirst(f) && Monotone(f) && Associative(f)
  }

  lemma CommaLawful()
    ensures Lawful(Seq)
  {
    forall x, y | Valid(x) && Valid(y) ensures Valid(Seq(x, y)) {
      CompositionsValid(x, y);
    }
    forall x | Valid(x) ensures Seq(EMPTY, x) == x {
      EmptyUnit(x);
    }
    assert Monotone(Seq) by {
      forall x, y, x', y' | Valid(x) && Valid(y) && Valid(x') && Valid(y') && Refines(x, x') && Refines(y, y')
        ensures Refines(Seq(x, y), Seq(x', y'))
      {
        SeqMonotone(x, y, x', y');
      }
    }
    forall x, y, z | Valid(x) && Valid(y) && Valid(z) ensures Refines(Seq(x, Seq(y, z)), Seq(Seq(x, y), z)) {
      SeqAssociative(x, y, z);
      StrongerOrderRefines(Seq(x, Seq(y, z)), Seq(Seq(x, y), z));
    }
  }

  lemma BarLawful()
    ensures Lawful(Par)
  {
    forall x, y | Valid(x) && Valid(y) ensures Valid(Par(x, y)) {
      CompositionsValid(x, y);
    }
    forall x | Valid(x) ensures Par(EMPTY, x) == x {
      EmptyUnit(x);
    }
    assert Monotone(Par) by {
      forall x, y, x', y' | Valid(x) && Valid(y) && Valid(x') && Valid(y') && Refines(x, x') && Refines(y, y')
        ensures Refines(Par(x, y), Par(x', y'))
      {
        ParMonotone(x, y, x', y');
      }
    }
    forall x, y, z | Valid(x) && Valid(y) && Valid(z) ensures Refines(Par(x, Par(y, z)), Par(Par(x, y), z)) {
      ParAssociative(x, y, z);
      StrongerOrderRefines(Par(x, Par(y, z)), Par(Par(x, y), z));
    }
  }

  lemma BowtieLawful(op: Operator)
    ensures Lawful(Bowtie(op))
  {
    match op
    case Comma => CommaLawful();
    case Bar => BarLawful();
  }

  /** All compositions of a string with those of a program, in order. */
  function RowProducts(f: Composition, x: PartialString, Y: Program): Program
  {
    if Y == [] then [] else RowProducts(f, x, Y[..|Y| - 1]) + [f(x, Y[|Y| - 1])]
  }

  function Products(f: Composition, X: Program, Y: Program): Program
  {
    if X == [] then [] else Products(f, X[..|X| - 1], Y) + RowProducts(f, X[|X| - 1], Y)
  }

  lemma {:induction false} RowProductsMembers(f: Composition, x: PartialString, Y: Program, p: PartialString)
    ensures p in RowProducts(f, x, Y) <==> exists y :: y in Y && p == f(x, y)
  {
    if Y != [] {
      var front, last := Y[..|Y| - 1], Y[|Y| - 1];
      assert Y == front + [last];
      RowProductsMembers(f, x, front, p);
    }
  }

  lemma {:induction false} ProductsMembers(f: Composition, X: Program, Y: Program, p: PartialString)
    ensures p in Products(f, X, Y) <==> exists x, y :: x in X && y in Y && p == f(x, y)
  {
    if X != [] {
      var front, last := X[..|X| - 1], X[|X| - 1];
      assert X == front + [last];
      ProductsMembers(f, front, Y, p);
      RowProductsMembers(f, last, Y, p);
    }
  }

  /** The `n`-fold composition, for positive `n`. */
  function Power(f: Composition, P: Program, n: nat): Program
    decreases n
  {
    if n <= 1 then P else Products(f, Power(f, P, n - 1), P)
  }

  ghost predicate AllValid(P: Program)
  {
    forall p :: p in P ==> Valid(p)
  }

  lemma ProductsValid(f: Composition, X: Program, Y: Program)
    requires Lawful(f) && AllValid(X) && AllValid(Y)
    ensures AllValid(Products(f, X, Y))
  {
    forall p | p in Products(f, X, Y) ensures Valid(p) {
      ProductsMembers(f, X, Y, p);
      var x, y :| x in X && y in Y && p == f(x, y);
    }
  }

  lemma {:induction false} PowerValid(f: Composition, P: Program, n: nat)
    requires Lawful(f) && AllValid(P)
    ensures AllValid(Power(f, P, n))
    decreases n
  {
    if n > 1 {
      PowerValid(f, P, n - 1);
      ProductsValid(f, Power(f, P, n - 1), P);
    }
  }

  // ---- Refinement of programs ---------------------------------------------------------

  ghost predicate RefinesSome(x: PartialString, Y: Program)
  {
    exists y {:trigger Refines(x, y)} :: y in Y && Refines(x, y)
  }

  ghost predicate ProgramRefines(X: Program, Y: Program)
  {
    forall x {:trigger RefinesSome(x, Y)} :: x in X ==> RefinesSome(x, Y)
  }

  lemma ProgramRefinesTransitive(X: Program, Y: Program, Z: Program)
    requires ProgramRefines(X, Y) && ProgramRefines(Y, Z)
    ensures ProgramRefines(X, Z)
  {
    forall x | x in X ensures RefinesSome(x, Z) {
      assert RefinesSome(x, Y);
      var y :| y in Y && Refines(x, y);
      assert RefinesSome(y, Z);
      var z :| z in Z && Refines(y, z);
      RefinesTransitive(x, y, z);
    }
  }

  lemma ProductsMonotone(f: Composition, X: Program, Y: Program, X': Program, Y': Program)
    requires Lawful(f) && AllValid(X) && AllValid(Y) && AllValid(X') && AllValid(Y')
    requires ProgramRefines(X, X') && ProgramRefines(Y, Y')
    ensures ProgramRefines(Products(f, X, Y), Products(f, X', Y'))
  {
    forall p | p in Products(f, X, Y) ensures RefinesSome(p, Products(f, X', Y')) {
      ProductsMembers(f, X, Y, p);
      var x, y :| x in X && y in Y && p == f(x, y);
      assert RefinesSome(x, X') && RefinesSome(y, Y');
      var x' :| x' in X' && Refines(x, x');
      var y' :| y' in Y' && Refines(y, y');
      ProductsMembers(f, X', Y', f(x', y'));
    }
  }

  lemma ProgramRefinesReflexive(X: Program)
    requires AllValid(X)
    ensures ProgramRefines(X, X)
  {
    forall x | x in X ensures RefinesSome(x, X) {
      RefinesReflexive(x);
    }
  }

  /** Regrouping `A , (B , C)`. */
  lemma ProductsAssociate(f: Composition, A: Program, B: Program, C: Program)
    requires Lawful(f) && AllValid(A) && AllValid(B) && AllValid(C)
    ensures ProgramRefines(Products(f, A, Products(f, B, C)), Products(f, Products(f, A, B), C))
  {
    forall p | p in Products(f, A, Products(f, B, C)) ensures RefinesSome(p, Products(f, Products(f, A, B), C)) {
      ProductsMembers(f, A, Products(f, B, C), p);
      var a, q :| a in A && q in Products(f, B, C) && p == f(a, q);
      ProductsMembers(f, B, C, q);
      var b, c :| b in B && c in C && q == f(b, c);
      ProductsMembers(f, A, B, f(a, b));
      ProductsMembers(f, Products(f, A, B), C, f(f(a, b), c));
    }
  }

  lemma Regroup(f: Composition, A: Program, B: Program, C: Program, T: Program)
    requires Lawful(f) && AllValid(A) && AllValid(B) && AllValid(C) && AllValid(T)
    requires ProgramRefines(Products(f, A, B), T)
    ensures ProgramRefines(Products(f, A, Products(f, B, C)), Products(f, T, C))
  {
    ProductsAssociate(f, A, B, C);
    ProductsValid(f, A, B);
    ProgramRefinesReflexive(C);
    ProductsMonotone(f, Products(f, A, B), C, T, C);
    ProgramRefinesTransitive(Products(f, A, Products(f, B, C)), Products(f, Products(f, A, B), C), Products(f, T, C));
  }

  lemma {:induction false} PowersAdd(f: Composition, P: Program, a: nat, b: nat, c: nat)
    requires Lawful(f) && AllValid(P) && a >= 1 && b >= 1 && c == a + b
    ensures ProgramRefines(Products(f, Power(f, P, a), Power(f, P, b)), Power(f, P, c))
    decreases b
  {
    if b == 1 {
      AddFirstFactor(f, P, a, c);
    } else {
      PowersAdd(f, P, a, b - 1, c - 1);
      AddOneFactor(f, P, a, b, c);
    }
  }

  lemma AddFirstFactor(f: Composition, P: Program, a: nat, c: nat)
    requires Lawful(f) && AllValid(P) && a >= 1 && c == a + 1
    ensures ProgramRefines(Products(f, Power(f, P, a), Power(f, P, 1)), Power(f, P, c))
  {
    PowerValid(f, P, c);
    ProgramRefinesReflexive(Power(f, P, c));
  }

  lemma AddOneFactor(f: Composition, P: Program, a: nat, b: nat, c: nat)
    requires Lawful(f) && AllValid(P) && b > 1 && c > 1
    requires ProgramRefines(Products(f, Power(f, P, a), Power(f, P, b - 1)), Power(f, P, c - 1))
    ensures ProgramRefines(Products(f, Power(f, P, a), Power(f, P, b)), Power(f, P, c))
  {
    PowerUnfolds(f, P, b);
    PowerUnfolds(f, P, c);
    PowerValid(f, P, a);
    PowerValid(f, P, b - 1);
    PowerValid(f, P, c - 1);
    Regroup(f, Power(f, P, a), Power(f, P, b - 1), P, Power(f, P, c - 1));
  }

  lemma PowerUnfolds(f: Composition, P: Program, n: nat)
    requires n > 1
    ensures Power(f, P, n) == Products(f, Power(f, P, n - 1), P)
  {
  }

  /** If `X` refines a power of `Y`, then every power of `X` does. */
  lemma {:induction false} PowersRefine(f: Composition, X: Program, Y: Program, m: nat, n: nat)
    requires Lawful(f) && AllValid(X) && AllValid(Y) && m >= 1 && n >= 1
    requires ProgramRefines(X, Power(f, Y, n))
    ensures m * n >= 1 && ProgramRefines(Power(f, X, m), Power(f, Y, m * n))
    decreases m
  {
    if m > 1 {
      PowersRefine(f, X, Y, m - 1, n);
      OneMoreTime(m, n);
      RefineOneMore(f, X, Y, m, (m - 1) * n, n, m * n);
    }
  }

  lemma RefineOneMore(f: Composition, X: Program, Y: Program, m: nat, k: nat, n: nat, c: nat)
    requires Lawful(f) && AllValid(X) && AllValid(Y) && m > 1 && k >= 1 && n >= 1 && c == k + n
    requires ProgramRefines(Power(f, X, m - 1), Power(f, Y, k)) && ProgramRefines(X, Power(f, Y, n))
    ensures ProgramRefines(Power(f, X, m), Power(f, Y, c))
  {
    PowerValid(f, X, m - 1);
    PowerValid(f, Y, k);
    PowerValid(f, Y, n);
    ProductsMonotone(f, Power(f, X, m - 1), X, Power(f, Y, k), Power(f, Y, n));
    PowersAdd(f, Y, k, n, c);
    PowerUnfolds(f, X, m);
    ProgramRefinesTransitive(Power(f, X, m), Products(f, Power(f, Y, k), Power(f, Y, n)), Power(f, Y, c));
  }

  // ---- Lengths bound the search -----------------------------------------------------------

  lemma LastFactor(f: Composition, P: Program, n: nat, p: PartialString) returns (x: PartialString, y: PartialString)
    requires Lawful(f) && AllValid(P) && n > 1 && p in Power(f, P, n)
    ensures x in Power(f, P, n - 1) && y in P && p == f(x, y) && p.length == x.length + y.length
  {
    ProductsMembers(f, Power(f, P, n - 1), P, p);
    x, y :| x in Power(f, P, n - 1) && y in P && p == f(x, y);
    PowerValid(f, P, n - 1);
  }

  lemma {:induction false} PowerLengths(f: Composition, P: Program, n: nat, shortest: nat, p: PartialString)
    requires Lawful(f) && AllValid(P) && n >= 1 && p in Power(f, P, n)
    requires forall q :: q in P ==> shortest <= q.length
    ensures n * shortest <= p.length
    decreases n
  {
    if n > 1 {
      var x, y := LastFactor(f, P, n, p);
      PowerLengths(f, P, n - 1, shortest, x);
      OneMoreTime(n, shortest);
    }
  }

  /** No power beyond the quotient of the lengths can be refined. */
  lemma LargePowersFail(f: Composition, X: Program, Y: Program, n: nat, longest: nat, shortest: nat)
    requires Lawful(f) && AllValid(X) && AllValid(Y) && X != [] && n >= 1 && shortest > 0
    requires forall x :: x in X ==> x.length <= longest
    requires forall y :: y in Y ==> shortest <= y.length
    requires ProgramRefines(X, Power(f, Y, n))
    ensures n <= longest / shortest
  {
    var x := X[0];
    assert x in X && RefinesSome(x, Power(f, Y, n));
    var y :| y in Power(f, Y, n) && Refines(x, y);
    PowerLengths(f, Y, n, shortest, y);
    assert n * shortest <= longest;
    QuotientBound(n, longest, shortest);
  }

  // ---- Index vectors --------------------------------------------------------------------

  /** The `|v|`-fold composition chosen by the indexes, starting from the empty string. */
  function Chosen(f: Composition, P: Program, v: seq<nat>): PartialString
    requires Digits(v, |P|)
  {
    if v == [] then EMPTY else f(Chosen(f, P, v[..|v| - 1]), P[v[|v| - 1]])
  }

  predicate Digits(v: seq<nat>, m: nat)
  {
    forall i :: 0 <= i < |v| ==> v[i] < m
  }

  ghost predicate ChosenBy(f: Composition, P: Program, v: seq<nat>, n: nat, p: PartialString)
  {
    |v| == n && Digits(v, |P|) && p == Chosen(f, P, v)
  }

  ghost predicate IsChosen(f: Composition, P: Program, n: nat, p: PartialString)
  {
    exists v :: ChosenBy(f, P, v, n, p)
  }

  lemma {:induction false} PowerStringsAreChosen(f: Composition, P: Program, n: nat, p: PartialString)
    requires Lawful(f) && AllValid(P) && n >= 1 && p in Power(f, P, n)
    ensures IsChosen(f, P, n, p)
    decreases n
  {
    if n == 1 {
      SingletonChosen(f, P, p);
    } else {
      var x, y := LastFactor(f, P, n, p);
      PowerStringsAreChosen(f, P, n - 1, x);
      ChooseOneMore(f, P, n, x, y, p);
    }
  }

  lemma ChooseOneMore(f: Composition, P: Program, n: nat, x: PartialString, y: PartialString, p: PartialString)
    requires n > 0 && IsChosen(f, P, n - 1, x) && y in P && p == f(x, y)
    ensures IsChosen(f, P, n, p)
  {
    var u: seq<nat> :| ChosenBy(f, P, u, n - 1, x);
    var k: nat :| k < |P| && P[k] == y;
    assert (u + [k])[..n - 1] == u;
    assert ChosenBy(f, P, u + [k], n, p);
  }

  lemma {:induction false} ChosenIsInPower(f: Composition, P: Program, v: seq<nat>, n: nat, p: PartialString)
    requires Lawful(f) && AllValid(P) && n >= 1 && ChosenBy(f, P, v, n, p)
    ensures p in Power(f, P, n)
    decreases n
  {
    if n == 1 {
      SingletonChosen(f, P, p);
    } else {
      var u, y := v[..n - 1], P[v[n - 1]];
      ChosenIsInPower(f, P, u, n - 1, Chosen(f, P, u));
      InNextPower(f, P, n, Chosen(f, P, u), y, p);
    }
  }

  lemma InNextPower(f: Composition, P: Program, n: nat, x: PartialString, y: PartialString, p: PartialString)
    requires n > 1 && x in Power(f, P, n - 1) && y in P && p == f(x, y)
    ensures p in Power(f, P, n)
  {
    ProductsMembers(f, Power(f, P, n - 1), P, p);
  }

  /** The eager power holds exactly the strings chosen by index vectors. */
  lemma PowerIsChosen(f: Composition, P: Program, n: nat, p: PartialString)
    requires Lawful(f) && AllValid(P) && n >= 1
    ensures p in Power(f, P, n) <==> IsChosen(f, P, n, p)
  {
    if p in Power(f, P, n) {
      PowerStringsAreChosen(f, P, n, p);
    }
    if IsChosen(f, P, n, p) {
      var v :| ChosenBy(f, P, v, n, p);
      ChosenIsInPower(f, P, v, n, p);
    }
  }

  lemma SingletonChosen(f: Composition, P: Program, p: PartialString)
    requires Lawful(f) && AllValid(P)
    ensures p in P <==> IsChosen(f, P, 1, p)
  {
    forall k: nat | k < |P| ensures Chosen(f, P, [k]) == P[k] {
      assert [k][..0] == [];
    }
    if p in P {
      var k :| 0 <= k < |P| && P[k] == p;
      assert ChosenBy(f, P, [k], 1, p);
    }
    forall v | ChosenBy(f, P, v, 1, p) ensures p in P {
      assert v == [v[0]];
    }
  }

  // ---- The counter ------------------------------------------------------------------------

  function Pow(m: nat, n: nat): (r: nat)
    decreases n
  {
    if n == 0 then 1 else m * Pow(m, n - 1)
  }

  function Zeros(n: nat): (v: seq<nat>)
    ensures |v| == n && forall i :: 0 <= i < n ==> v[i] == 0
  {
    seq(n, _ => 0)
  }

  /** The number written by `v`, least significant digit first. */
  function Rank(v: seq<nat>, m: nat): nat
  {
    if v == [] then 0 else v[0] + m * Rank(v[1..], m)
  }

  /** Add one with carry, back to zeros after the last vector. */
  function Increment(v: seq<nat>, m: nat): (w: seq<nat>)
    ensures |w| == |v|
  {
    if v == [] then []
    else if v[0] + 1 == m then [0] + Increment(v[1..], m)
    else [v[0] + 1] + v[1..]
  }

  predicate AllLast(v: seq<nat>, m: nat)
  {
    forall i :: 0 <= i < |v| ==> v[i] + 1 == m
  }

  lemma {:induction false} RankBelow(v: seq<nat>, m: nat)
    requires m > 0 && Digits(v, m)
    ensures Rank(v, m) < Pow(m, |v|)
  {
    if v != [] {
      RankBelow(v[1..], m);
      assert m * Rank(v[1..], m) + m <= m * Pow(m, |v| - 1) by {
        Scale(m, Rank(v[1..], m) + 1, Pow(m, |v| - 1));
      }
    }
  }

  lemma {:induction false} RankOfZeros(n: nat, m: nat)
    ensures Rank(Zeros(n), m) == 0
  {
    if n > 0 {
      assert Zeros(n)[1..] == Zeros(n - 1);
      RankOfZeros(n - 1, m);
    }
  }

  lemma {:induction false} RankInjective(v: seq<nat>, w: seq<nat>, m: nat)
    requires Digits(v, m) && Digits(w, m) && |v| == |w| && Rank(v, m) == Rank(w, m)
    ensures v == w
  {
    if v != [] {
      SameDigit(v[0], Rank(v[1..], m), w[0], Rank(w[1..], m), m);
      RankInjective(v[1..], w[1..], m);
      assert v == [v[0]] + v[1..] && w == [w[0]] + w[1..];
    }
  }

  /** Adding one adds one, or wraps around after the largest number. */
  lemma {:induction false} IncrementRank(v: seq<nat>, m: nat)
    requires m > 0 && Digits(v, m)
    ensures Digits(Increment(v, m), m)
    ensures AllLast(v, m) ==> Rank(v, m) + 1 == Pow(m, |v|) && Increment(v, m) == Zeros(|v|)
    ensures !AllLast(v, m) ==> Rank(Increment(v, m), m) == Rank(v, m) + 1
  {
    if v != [] {
      var rest := v[1..];
      IncrementRank(rest, m);
      assert AllLast(v, m) <==> v[0] + 1 == m && AllLast(rest, m);
      assert Increment(v, m)[1..] == if v[0] + 1 == m then Increment(rest, m) else rest;
      Carry(v[0], Rank(rest, m), m);
    }
  }

  lemma Carry(a: nat, r: nat, m: nat)
    ensures a + 1 == m ==> a + m * r + 1 == m * (r + 1)
  {
  }

  /** A run of digits about to wrap turns to zeros. */
  lemma {:induction false} IncrementCarries(v: seq<nat>, m: nat, i: nat)
    requires i <= |v| && AllLast(v[..i], m)
    ensures Increment(v, m) == Zeros(i) + Increment(v[i..], m)
    decreases i
  {
    if i > 0 {
      var rest := v[1..];
      assert v[..i][0] + 1 == m;
      DropFirst(v, i);
      IncrementCarries(rest, m, i - 1);
      assert Zeros(i) == [0] + Zeros(i - 1);
    } else {
      assert v[0..] == v;
    }
  }

  lemma DropFirst(v: seq<nat>, i: nat)
    requires 0 < i <= |v|
    ensures v[1..][..i - 1] == v[..i][1..] && v[1..][i - 1..] == v[i..]
  {
  }

  /** The counter after `k` increments from zero. */
  function Counter(n: nat, m: nat, k: nat): seq<nat>
    decreases k
  {
    if k == 0 then Zeros(n) else Increment(Counter(n, m, k - 1), m)
  }

  lemma {:induction false} CounterRank(n: nat, m: nat, k: nat)
    requires m > 0 && k < Pow(m, n)
    ensures |Counter(n, m, k)| == n && Digits(Counter(n, m, k), m) && Rank(Counter(n, m, k), m) == k
    decreases k
  {
    if k == 0 {
      RankOfZeros(n, m);
    } else {
      CounterRank(n, m, k - 1);
      IncrementRank(Counter(n, m, k - 1), m);
    }
  }

  /** The last vector is followed by zeros. */
  lemma CounterWraps(n: nat, m: nat)
    requires m > 0
    ensures Pow(m, n) > 0 && Counter(n, m, Pow(m, n)) == Zeros(n)
  {
    CounterRank(n, m, 0);
    RankBelow(Zeros(n), m);
    var last := Counter(n, m, Pow(m, n) - 1);
    CounterRank(n, m, Pow(m, n) - 1);
    IncrementRank(last, m);
    RankBelow(Increment(last, m), m);
  }

  /** Counting visits every vector of digits exactly once before it is back at zero. */
  lemma EnumerationExact(n: nat, m: nat, v: seq<nat>)
    requires m > 0 && Digits(v, m) && |v| == n
    ensures Rank(v, m) < Pow(m, n) && Counter(n, m, Rank(v, m)) == v
    ensures forall k: nat :: k < Pow(m, n) && Counter(n, m, k) == v ==> k == Rank(v, m)
  {
    RankBelow(v, m);
    CounterRank(n, m, Rank(v, m));
    RankInjective(Counter(n, m, Rank(v, m)), v, m);
    forall k: nat | k < Pow(m, n) && Counter(n, m, k) == v ensures k == Rank(v, m) {
      CounterRank(n, m, k);
    }
  }
}
