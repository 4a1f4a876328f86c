/** The least fixed point of a program is the union of its powers.  The loop that compares two
    of them looks for one power of the second program that takes all strings of the first;
    here is what that says about the least fixed points, and what it does not. */
module LeastFixedPoints {
  import opened Arithmetic
  import opened PartialStrings
  import opened RefinementLaws
  import opened ProgramPowers

  // ---- Least fixed points ----------------------------------------------------------------

  ghost predicate InPower(f: Composition, P: Program, n: nat, x: PartialString)
  {
    n >= 1 && x in Power(f, P, n)
  }

  ghost predicate InLfp(f: Composition, P: Program, x: PartialString)
  {
    exists n: nat :: InPower(f, P, n, x)
  }

  /** The set contains `P`, and stays the same when its strings are composed with those of `P`. */
  ghost predicate IsClosed(f: Composition, P: Program, S: iset<PartialString>)
  {
    && (forall p :: p in P ==> p in S)
    && (forall x, p :: x in S && p in P ==> f(x, p) in S)
  }

  /** It is a fixed point, and the least one. */
  lemma LfpIsLeast(f: Composition, P: Program, S: iset<PartialString>)
    ensures IsClosed(f, P, iset x | InLfp(f, P, x))
    ensures IsClosed(f, P, S) ==> forall x :: InLfp(f, P, x) ==> x in S
  {
    forall p | p in P ensures InLfp(f, P, p) {
      assert InPower(f, P, 1, p);
    }
    forall x, p | InLfp(f, P, x) && p in P ensures InLfp(f, P, f(x, p)) {
      var n: nat :| InPower(f, P, n, x);
      ProductsMembers(f, Power(f, P, n), P, f(x, p));
      assert InPower(f, P, n + 1, f(x, p));
    }
    if IsClosed(f, P, S) {
      forall x | InLfp(f, P, x) ensures x in S {
        var n: nat :| InPower(f, P, n, x);
        PowerWithin(f, P, S, n, x);
      }
    }
  }

  lemma {:induction false} PowerWithin(f: Composition, P: Program, S: iset<PartialString>, n: nat, x: PartialString)
    requires IsClosed(f, P, S) && InPower(f, P, n, x)
    ensures x in S
  {
    if n > 1 {
      ProductsMembers(f, Power(f, P, n - 1), P, x);
      var y, p :| y in Power(f, P, n - 1) && p in P && x == f(y, p);
      PowerWithin(f, P, S, n - 1, y);
    }
  }

  /** `x` refines a string of the `n`th power. */
  ghost predicate RefinesInPower(f: Composition, x: PartialString, Y: Program, n: nat)
  {
    n >= 1 && RefinesSome(x, Power(f, Y, n))
  }

  ghost predicate RefinesInLfp(f: Composition, x: PartialString, Y: Program)
  {
    exists n: nat :: RefinesInPower(f, x, Y, n)
  }

  /** Each string of the first least fixed point refines one of the second. */
  ghost predicate LfpRefines(f: Composition, X: Program, Y: Program)
  {
    forall x :: InLfp(f, X, x) ==> RefinesInLfp(f, x, Y)
  }

  /** It is enough that the strings of `X` do, each in a power of its own. */
  lemma LfpByStrings(f: Composition, X: Program, Y: Program)
    requires Lawful(f) && AllValid(X) && AllValid(Y)
    ensures LfpRefines(f, X, Y) <==> forall x :: x in X ==> RefinesInLfp(f, x, Y)
  {
    if LfpRefines(f, X, Y) {
      forall x | x in X ensures RefinesInLfp(f, x, Y) {
        assert InPower(f, X, 1, x);
      }
    }
    if forall x :: x in X ==> RefinesInLfp(f, x, Y) {
      var S := iset x | Valid(x) && RefinesInLfp(f, x, Y);
      RefiningIsClosed(f, X, Y, S);
      LfpIsLeast(f, X, S);
    }
  }

  /** The valid strings that refine one of the least fixed point are closed under composing
      with `X`, so they contain its least fixed point. */
  lemma RefiningIsClosed(f: Composition, X: Program, Y: Program, S: iset<PartialString>)
    requires Lawful(f) && AllValid(X) && AllValid(Y) && forall x :: x in X ==> RefinesInLfp(f, x, Y)
    requires S == iset x | Valid(x) && RefinesInLfp(f, x, Y)
    ensures IsClosed(f, X, S)
  {
    forall x, p | x in S && p in X ensures f(x, p) in S {
      ComposedInLfp(f, x, p, Y);
      ComposedValid(f, x, p);
    }
  }

  lemma ComposedValid(f: Composition, x: PartialString, y: PartialString)
    requires Lawful(f) && Valid(x) && Valid(y)
    ensures Valid(f(x, y))
  {
  }

  lemma ComposedInLfp(f: Composition, x: PartialString, y: PartialString, Y: Program)
    requires Lawful(f) && AllValid(Y) && Valid(x) && Valid(y) && RefinesInLfp(f, x, Y) && RefinesInLfp(f, y, Y)
    ensures RefinesInLfp(f, f(x, y), Y)
  {
    var a: nat :| RefinesInPower(f, x, Y, a);
    var b: nat :| RefinesInPower(f, y, Y, b);
    ComposedInPower(f, x, y, Y, a, b, a + b);
  }

  lemma ComposedInPower(f: Composition, x: PartialString, y: PartialString, Y: Program, a: nat, b: nat, c: nat)
    requires Lawful(f) && AllValid(Y) && Valid(x) && Valid(y) && c == a + b
    requires RefinesInPower(f, x, Y, a) && RefinesInPower(f, y, Y, b)
    ensures RefinesInPower(f, f(x, y), Y, c)
  {
    PowerValid(f, Y, a);
    PowerValid(f, Y, b);
    ComposedInProducts(f, x, y, Power(f, Y, a), Power(f, Y, b));
    PowersAdd(f, Y, a, b, c);
    RefinesThrough(f(x, y), Products(f, Power(f, Y, a), Power(f, Y, b)), Power(f, Y, c));
  }

  lemma ComposedInProducts(f: Composition, x: PartialString, y: PartialString, X: Program, Y: Program)
    requires Lawful(f) && Valid(x) && Valid(y) && AllValid(X) && AllValid(Y) && RefinesSome(x, X) && RefinesSome(y, Y)
    ensures RefinesSome(f(x, y), Products(f, X, Y))
  {
    var x' :| x' in X && Refines(x, x');
    var y' :| y' in Y && Refines(y, y');
    ProductsMembers(f, X, Y, f(x', y'));
  }

  lemma RefinesThrough(x: PartialString, X: Program, Y: Program)
    requires RefinesSome(x, X) && ProgramRefines(X, Y)
    ensures RefinesSome(x, Y)
  {
    var y :| y in X && Refines(x, y);
    assert RefinesSome(y, Y);
    var z :| z in Y && Refines(y, z);
    RefinesTransitive(x, y, z);
  }

  // ---- One power for all strings -----------------------------------------------------------

  /** `X` refines the `n`-fold composition of `Y`. */
  ghost predicate RefinesPower(f: Composition, X: Program, Y: Program, n: nat)
  {
    ProgramRefines(X, Power(f, Y, n))
  }

  ghost predicate NoPowerUpTo(f: Composition, X: Program, Y: Program, k: nat)
  {
    forall n :: 1 <= n <= k ==> !RefinesPower(f, X, Y, n)
  }

  /** Some power of `Y`, out of infinitely many, takes all strings of `X`. */
  ghost predicate RefinesSomePower(f: Composition, X: Program, Y: Program)
  {
    exists n: nat :: n >= 1 && RefinesPower(f, X, Y, n)
  }

  lemma EnoughPowers(f: Composition, X: Program, Y: Program, k: nat, longest: nat, shortest: nat)
    requires Lawful(f) && AllValid(X) && AllValid(Y) && X != [] && shortest > 0
    requires forall x :: x in X ==> x.length <= longest
    requires forall y :: y in Y ==> shortest <= y.length
    requires k > longest / shortest
    ensures NoPowerUpTo(f, X, Y, k) ==> !RefinesSomePower(f, X, Y)
  {
    forall n: nat | n >= 1 && RefinesPower(f, X, Y, n) ensures n <= k {
      LargePowersFail(f, X, Y, n, longest, shortest);
    }
  }

  /** A positive answer carries over to all powers of `X`. */
  lemma SuccessCoversAllPowers(f: Composition, X: Program, Y: Program, m: nat)
    requires Lawful(f) && AllValid(X) && AllValid(Y) && m >= 1 && RefinesSomePower(f, X, Y)
    ensures RefinesSomePower(f, Power(f, X, m), Y)
  {
    var n: nat :| n >= 1 && RefinesPower(f, X, Y, n);
    PowersRefine(f, X, Y, m, n);
    assert RefinesPower(f, Power(f, X, m), Y, m * n);
  }

  /** One power for all strings is enough for the least fixed points. */
  lemma OnePowerSuffices(f: Composition, X: Program, Y: Program)
    requires Lawful(f) && AllValid(X) && AllValid(Y)
    ensures RefinesSomePower(f, X, Y) ==> LfpRefines(f, X, Y)
  {
    LfpByStrings(f, X, Y);
    if RefinesSomePower(f, X, Y) {
      var n: nat :| n >= 1 && RefinesPower(f, X, Y, n);
      forall x | x in X ensures RefinesInLfp(f, x, Y) {
        assert RefinesInPower(f, x, Y, n);
      }
    }
  }

  /** The two questions have the same answer. */
  ghost predicate Agrees(f: Composition, X: Program, Y: Program)
  {
    LfpRefines(f, X, Y) <==> RefinesSomePower(f, X, Y)
  }

  // ---- The lengths decide whether they agree -------------------------------------------------

  function Lengths(P: Program): (ls: seq<nat>)
    ensures |ls| == |P| && forall i :: 0 <= i < |P| ==> ls[i] == P[i].length
  {
    seq(|P|, (i: int) requires 0 <= i < |P| => P[i].length)
  }

  /** `l` is the sum of `n` of the lengths, each of which may occur any number of times. */
  predicate Splits(ls: seq<nat>, l: nat, n: nat)
  {
    if n == 0 then l == 0
    else exists i | 0 <= i < |ls| :: ls[i] <= l && Splits(ls, l - ls[i], n - 1)
  }

  predicate Positive(ls: seq<nat>)
  {
    forall i :: 0 <= i < |ls| ==> ls[i] > 0
  }

  /** A test on lengths: some length of the first list is no sum of lengths of the second, or
      any two of them are sums of one and the same number of lengths only. */
  predicate OneSplit(lx: seq<nat>, ly: seq<nat>)
  {
    || (exists i | 0 <= i < |lx| :: NoSplit(ly, lx[i]))
    || (forall i, j | 0 <= i < |lx| && 0 <= j < |lx| && i != j :: SameSplit(ly, lx[i], lx[j]))
  }

  predicate NoSplit(ls: seq<nat>, l: nat)
  {
    forall n | 1 <= n <= l :: !Splits(ls, l, n)
  }

  predicate SameSplit(ls: seq<nat>, l: nat, k: nat)
  {
    forall n, m | 1 <= n <= l && 1 <= m <= k :: Splits(ls, l, n) && Splits(ls, k, m) ==> n == m
  }

  lemma {:induction false} SplitBound(ls: seq<nat>, l: nat, n: nat)
    requires Positive(ls) && Splits(ls, l, n)
    ensures n <= l
    decreases n
  {
    if n > 0 {
      var i :| 0 <= i < |ls| && ls[i] <= l && Splits(ls, l - ls[i], n - 1);
      SplitBound(ls, l - ls[i], n - 1);
    }
  }

  /** The length of a string of the `n`th power is the sum of `n` lengths. */
  lemma {:induction false} PowerSplits(f: Composition, Y: Program, n: nat, q: PartialString)
    requires Lawful(f) && AllValid(Y) && InPower(f, Y, n, q)
    ensures Splits(Lengths(Y), q.length, n)
    decreases n
  {
    var front, last := LastInPower(f, Y, n, q);
    if n == 1 {
      SplitsOneMore(Y, 0, 0, last, q.length);
    } else {
      PowerSplits(f, Y, n - 1, front);
      SplitsOneMore(Y, front.length, n - 1, last, q.length);
    }
  }

  lemma LastInPower(f: Composition, Y: Program, n: nat, q: PartialString)
    returns (front: PartialString, last: PartialString)
    requires Lawful(f) && AllValid(Y) && InPower(f, Y, n, q)
    ensures last in Y
    ensures if n == 1 then q == last
            else InPower(f, Y, n - 1, front) && q == f(front, last) && q.length == front.length + last.length
  {
    if n == 1 {
      front, last := q, q;
    } else {
      front, last := LastFactor(f, Y, n, q);
    }
  }

  lemma SplitsOneMore(Y: Program, l: nat, n: nat, y: PartialString, k: nat)
    requires y in Y && Splits(Lengths(Y), l, n) && k == l + y.length
    ensures Splits(Lengths(Y), k, n + 1)
  {
    var i :| 0 <= i < |Y| && Y[i] == y;
    assert k - Lengths(Y)[i] == l;
  }

  lemma RefinesSplits(f: Composition, x: PartialString, Y: Program, n: nat)
    requires Lawful(f) && AllValid(Y) && Positive(Lengths(Y)) && RefinesInPower(f, x, Y, n)
    ensures Splits(Lengths(Y), x.length, n) && 1 <= n <= x.length
  {
    var q :| q in Power(f, Y, n) && Refines(x, q);
    assert InPower(f, Y, n, q);
    var h :| IsMorphism(h, q, x);
    PowerSplits(f, Y, n, q);
    SplitBound(Lengths(Y), q.length, n);
  }

  /** The test is enough. */
  lemma OneSplitAgrees(f: Composition, X: Program, Y: Program)
    requires Lawful(f) && AllValid(X) && AllValid(Y) && Positive(Lengths(Y))
    requires OneSplit(Lengths(X), Lengths(Y))
    ensures Agrees(f, X, Y)
  {
    LfpByStrings(f, X, Y);
    OnePowerSuffices(f, X, Y);
    if LfpRefines(f, X, Y) {
      forall i | 0 <= i < |X| ensures !NoSplit(Lengths(Y), X[i].length) {
        NotWithoutSplit(f, X, Y, i);
      }
      CommonPower(f, X, Y);
    }
  }

  lemma NotWithoutSplit(f: Composition, X: Program, Y: Program, i: nat)
    requires Lawful(f) && AllValid(X) && AllValid(Y) && Positive(Lengths(Y)) && i < |X|
    requires forall x :: x in X ==> RefinesInLfp(f, x, Y)
    ensures !NoSplit(Lengths(Y), X[i].length)
  {
    assert X[i] in X && RefinesInLfp(f, X[i], Y);
    var n: nat :| RefinesInPower(f, X[i], Y, n);
    RefinesSplits(f, X[i], Y, n);
  }

  lemma CommonPower(f: Composition, X: Program, Y: Program)
    requires Lawful(f) && AllValid(X) && AllValid(Y) && Positive(Lengths(Y))
    requires forall x :: x in X ==> RefinesInLfp(f, x, Y)
    requires forall i, j :: 0 <= i < |X| && 0 <= j < |X| && i != j ==> SameSplit(Lengths(Y), X[i].length, X[j].length)
    ensures RefinesSomePower(f, X, Y)
  {
    if X == [] {
      assert RefinesPower(f, X, Y, 1);
    } else {
      assert X[0] in X && RefinesInLfp(f, X[0], Y);
      var n: nat :| RefinesInPower(f, X[0], Y, n);
      RefinesSplits(f, X[0], Y, n);
      forall x | x in X ensures RefinesSome(x, Power(f, Y, n)) {
        var i :| 0 <= i < |X| && X[i] == x;
        if i != 0 {
          SamePower(f, X[0], x, Y, n);
        }
      }
      assert RefinesPower(f, X, Y, n);
    }
  }

  lemma SamePower(f: Composition, x: PartialString, y: PartialString, Y: Program, n: nat)
    requires Lawful(f) && AllValid(Y) && Positive(Lengths(Y)) && SameSplit(Lengths(Y), x.length, y.length)
    requires RefinesInPower(f, x, Y, n) && RefinesInLfp(f, y, Y)
    ensures RefinesInPower(f, y, Y, n)
  {
    var m: nat :| RefinesInPower(f, y, Y, m);
    RefinesSplits(f, x, Y, n);
    RefinesSplits(f, y, Y, m);
  }

  // ---- The test is necessary, for programs with these lengths ---------------------------------

  /** A chain of `n` events of which the first has label 1 and all others have label 0. */
  function Marked(n: nat): PartialString
    requires n > 0
  {
    if n == 1 then Single(1) else Seq(Marked(n - 1), Single(0))
  }

  /** How many events have label 1. */
  function Marks(x: PartialString): nat
  {
    multiset(x.labels)[1]
  }

  lemma {:induction false} MarkedOnce(n: nat)
    requires n > 0
    ensures Valid(Marked(n)) && Marked(n).length == n && Marks(Marked(n)) == 1
  {
    if n == 1 {
      SingleValid(1);
    } else {
      MarkedOnce(n - 1);
      SingleValid(0);
      CompositionsValid(Marked(n - 1), Single(0));
    }
  }

  lemma MarksAdd(op: Operator, x: PartialString, y: PartialString)
    ensures Marks(Bowtie(op)(x, y)) == Marks(x) + Marks(y)
  {
    assert Bowtie(op)(x, y).labels == x.labels + y.labels;
  }

  ghost predicate AllMarked(Y: Program)
  {
    forall y :: y in Y ==> Marks(y) == 1
  }

  /** The marks of a string tell which power it is in. */
  lemma {:induction false} MarksCount(op: Operator, Y: Program, n: nat, q: PartialString)
    requires AllValid(Y) && AllMarked(Y) && InPower(Bowtie(op), Y, n, q)
    ensures Marks(q) == n
    decreases n
  {
    if n > 1 {
      BowtieLawful(op);
      var front, last := LastFactor(Bowtie(op), Y, n, q);
      MarksCount(op, Y, n - 1, front);
      MarksAdd(op, front, last);
    }
  }

  /** An injection into a list that keeps the entries makes the first a part of the second. */
  lemma {:induction false} InjectedLabels(a: seq<Label>, b: seq<Label>, h: seq<nat>)
    requires |h| == |a| && forall e :: 0 <= e < |h| ==> h[e] < |b| && b[h[e]] == a[e]
    requires forall e, e' :: 0 <= e < e' < |h| ==> h[e] != h[e']
    ensures multiset(a) <= multiset(b)
  {
    if a != [] {
      var n := |a| - 1;
      var h' := InjectedRest(a, b, h);
      InjectedLabels(a[..n], b[..h[n]] + b[h[n] + 1..], h');
      assert a == a[..n] + [a[n]];
      WithoutOne(b, h[n]);
    }
  }

  lemma WithoutOne(b: seq<Label>, k: nat)
    requires k < |b|
    ensures multiset(b) == multiset(b[..k] + b[k + 1..]) + multiset{b[k]}
  {
    assert b == b[..k] + [b[k]] + b[k + 1..];
  }

  /** The injection without the last entry and its image. */
  lemma InjectedRest(a: seq<Label>, b: seq<Label>, h: seq<nat>) returns (r: seq<nat>)
    requires a != [] && |h| == |a| && forall e :: 0 <= e < |h| ==> h[e] < |b| && b[h[e]] == a[e]
    requires forall e, e' :: 0 <= e < e' < |h| ==> h[e] != h[e']
    ensures var n := |a| - 1;
      var b' := b[..h[n]] + b[h[n] + 1..];
      |r| == n && forall e :: 0 <= e < n ==> r[e] < |b'| && b'[r[e]] == a[..n][e]
    ensures forall e, e' :: 0 <= e < e' < |r| ==> r[e] != r[e']
  {
    var n := |a| - 1;
    var k := h[n];
    r := seq(n, (e: int) requires 0 <= e < n => if h[e] < k then h[e] else (h[e] - 1) as nat);
    forall e | 0 <= e < n ensures h[e] != k {}
  }

  lemma RefinesSameMarks(x: PartialString, y: PartialString)
    requires Refines(x, y)
    ensures Marks(x) == Marks(y)
  {
    var h :| IsMorphism(h, y, x);
    InjectedLabels(y.labels, x.labels, h);
    assert |multiset(x.labels) - multiset(y.labels)| == 0;
    assert multiset(x.labels) == multiset(y.labels) + (multiset(x.labels) - multiset(y.labels));
  }

  /** A string of the `n`th power with a given length. */
  ghost function OfLength(f: Composition, Y: Program, l: nat, n: nat): (x: PartialString)
    requires Lawful(f) && AllValid(Y) && n >= 1 && Splits(Lengths(Y), l, n)
    ensures InPower(f, Y, n, x) && x.length == l
    decreases n
  {
    var i :| 0 <= i < |Y| && Lengths(Y)[i] <= l && Splits(Lengths(Y), l - Lengths(Y)[i], n - 1);
    if n == 1 then Y[i]
    else
      var front := OfLength(f, Y, l - Lengths(Y)[i], n - 1);
      NextInPower(f, Y, n, front, Y[i]);
      f(front, Y[i])
  }

  lemma NextInPower(f: Composition, Y: Program, n: nat, front: PartialString, y: PartialString)
    requires Lawful(f) && AllValid(Y) && n > 1 && InPower(f, Y, n - 1, front) && y in Y
    ensures InPower(f, Y, n, f(front, y)) && f(front, y).length == front.length + y.length
  {
    PowerValid(f, Y, n - 1);
    ProductsMembers(f, Power(f, Y, n - 1), Y, f(front, y));
  }

  ghost function MarkedProgram(ly: seq<nat>): (Y: Program)
    requires Positive(ly)
    ensures AllValid(Y) && AllMarked(Y) && Lengths(Y) == ly
  {
    forall n: nat | n > 0 ensures Valid(Marked(n)) && Marked(n).length == n && Marks(Marked(n)) == 1 {
      MarkedOnce(n);
    }
    seq(|ly|, (i: int) requires 0 <= i < |ly| => Marked(ly[i]))
  }

  /** For each length, a number of factors. */
  ghost predicate ChoosesSplits(lx: seq<nat>, ly: seq<nat>, ns: seq<nat>)
  {
    |ns| == |lx| && forall k :: 0 <= k < |lx| ==> ns[k] >= 1 && Splits(ly, lx[k], ns[k])
  }

  /** A program whose strings are in these powers. */
  ghost function SplitProgram(op: Operator, Y: Program, lx: seq<nat>, ns: seq<nat>): (X: Program)
    requires AllValid(Y) && ChoosesSplits(lx, Lengths(Y), ns)
    ensures AllValid(X) && Lengths(X) == lx
    ensures forall k :: 0 <= k < |lx| ==> InPower(Bowtie(op), Y, ns[k], X[k])
  {
    BowtieLawful(op);
    var X := seq(|lx|, (k: int) requires 0 <= k < |lx| => OfLength(Bowtie(op), Y, lx[k], ns[k]));
    assert AllValid(X) by {
      forall k | 0 <= k < |X| ensures Valid(X[k]) {
        assert InPower(Bowtie(op), Y, ns[k], X[k]);
        PowerValid(Bowtie(op), Y, ns[k]);
      }
    }
    X
  }

  /** If two strings have different numbers of marks, the questions differ. */
  lemma DifferentMarks(op: Operator, X: Program, Y: Program, ns: seq<nat>, i: nat, j: nat)
    requires AllValid(X) && AllValid(Y) && AllMarked(Y) && |ns| == |X| && i < |X| && j < |X| && ns[i] != ns[j]
    requires forall k :: 0 <= k < |X| ==> InPower(Bowtie(op), Y, ns[k], X[k])
    ensures LfpRefines(Bowtie(op), X, Y) && !RefinesSomePower(Bowtie(op), X, Y)
  {
    var f := Bowtie(op);
    BowtieLawful(op);
    LfpByStrings(f, X, Y);
    forall x | x in X ensures RefinesInLfp(f, x, Y) {
      var k :| 0 <= k < |X| && X[k] == x;
      RefinesReflexive(x);
      assert RefinesInPower(f, x, Y, ns[k]);
    }
    forall n: nat | n >= 1 ensures !RefinesPower(f, X, Y, n) {
      if RefinesPower(f, X, Y, n) {
        MarksTellPower(op, X[i], Y, ns[i], n);
        MarksTellPower(op, X[j], Y, ns[j], n);
      }
    }
  }

  lemma MarksTellPower(op: Operator, x: PartialString, Y: Program, n: nat, m: nat)
    requires AllValid(Y) && AllMarked(Y) && InPower(Bowtie(op), Y, n, x) && RefinesInPower(Bowtie(op), x, Y, m)
    ensures n == m
  {
    var q :| q in Power(Bowtie(op), Y, m) && Refines(x, q);
    assert InPower(Bowtie(op), Y, m, q);
    MarksCount(op, Y, n, x);
    MarksCount(op, Y, m, q);
    RefinesSameMarks(x, q);
  }

  /** If the test fails, the numbers of factors can be chosen differently for two strings. */
  lemma SplitsDiffer(lx: seq<nat>, ly: seq<nat>) returns (ns: seq<nat>, i: nat, j: nat)
    requires !OneSplit(lx, ly)
    ensures ChoosesSplits(lx, ly, ns) && i < |lx| && j < |lx| && ns[i] != ns[j]
  {
    i, j :| i < |lx| && j < |lx| && i != j && !SameSplit(ly, lx[i], lx[j]);
    var n: nat, m: nat :| 1 <= n <= lx[i] && 1 <= m <= lx[j] && Splits(ly, lx[i], n) && Splits(ly, lx[j], m) && n != m;
    var some := SomeSplits(lx, ly, |lx|);
    ns := some[i := n][j := m];
  }

  lemma {:induction false} SomeSplits(lx: seq<nat>, ly: seq<nat>, k: nat) returns (ns: seq<nat>)
    requires k <= |lx| && forall i :: 0 <= i < |lx| ==> !NoSplit(ly, lx[i])
    ensures ChoosesSplits(lx[..k], ly, ns)
  {
    if k == 0 {
      ns := [];
    } else {
      var front := SomeSplits(lx, ly, k - 1);
      assert !NoSplit(ly, lx[k - 1]);
      var n: nat :| 1 <= n <= lx[k - 1] && Splits(ly, lx[k - 1], n);
      ns := front + [n];
    }
  }

  ghost predicate AgreesOn(op: Operator, lx: seq<nat>, ly: seq<nat>)
  {
    forall X, Y :: AllValid(X) && AllValid(Y) && Lengths(X) == lx && Lengths(Y) == ly ==> Agrees(Bowtie(op), X, Y)
  }

  /** Main result: as far as lengths can tell, the test is exact.  All programs with strings of
      these lengths get the same answer to both questions if and only if it succeeds. */
  lemma LengthsDecide(op: Operator, lx: seq<nat>, ly: seq<nat>)
    requires Positive(ly)
    ensures AgreesOn(op, lx, ly) <==> OneSplit(lx, ly)
  {
    BowtieLawful(op);
    if OneSplit(lx, ly) {
      forall X, Y | AllValid(X) && AllValid(Y) && Lengths(X) == lx && Lengths(Y) == ly
        ensures Agrees(Bowtie(op), X, Y)
      {
        OneSplitAgrees(Bowtie(op), X, Y);
      }
    } else {
      var ns, i, j := SplitsDiffer(lx, ly);
      var Y := MarkedProgram(ly);
      var X := SplitProgram(op, Y, lx, ns);
      DifferentMarks(op, X, Y, ns, i, j);
      assert !Agrees(Bowtie(op), X, Y);
    }
  }

  /** The test succeeds for a single string ... */
  lemma OneStringSplits(l: nat, ly: seq<nat>)
    ensures OneSplit([l], ly)
  {
  }

  /** ... and when all strings on either side have one length. */
  lemma OneLengthSplits(lx: seq<nat>, ly: seq<nat>, l: nat, k: nat)
    requires k > 0 && (forall i :: 0 <= i < |lx| ==> lx[i] == l) && (forall i :: 0 <= i < |ly| ==> ly[i] == k)
    ensures OneSplit(lx, ly)
  {
    forall n: nat, m: nat | Splits(ly, l, n) && Splits(ly, l, m) ensures n == m {
      SplitsEvenly(ly, l, k, n);
      SplitsEvenly(ly, l, k, m);
      SameFactor(n, m, k);
    }
  }

  lemma {:induction false} SplitsEvenly(ls: seq<nat>, l: nat, k: nat, n: nat)
    requires (forall i :: 0 <= i < |ls| ==> ls[i] == k) && Splits(ls, l, n)
    ensures l == n * k
    decreases n
  {
    if n > 0 {
      SplitsEvenly(ls, l - k, k, n - 1);
      OneMoreTime(n, k);
    }
  }

  lemma SameFactor(n: nat, m: nat, k: nat)
    requires k > 0 && n * k == m * k
    ensures n == m
  {
    Commute(n, k);
    Commute(m, k);
    SameDigit(0, n, 0, m, k);
  }

  // ---- An input on which the questions differ ----------------------------------------------------

  /** `a` and its composition with itself against `a`, for any string with events: every string
      of every power of the first program refines one of some power of the second, but no single
      power takes both. */
  lemma NotOnePower(op: Operator, a: PartialString)
    requires Valid(a) && a.length > 0
    ensures var X := [a, Bowtie(op)(a, a)];
      AllValid(X) && LfpRefines(Bowtie(op), X, [a]) && !RefinesSomePower(Bowtie(op), X, [a])
  {
    BowtieLawful(op);
    TwoLengths(Bowtie(op), a, Bowtie(op)(a, a));
  }

  lemma TwoLengths(f: Composition, a: PartialString, b: PartialString)
    requires Lawful(f) && Valid(a) && a.length > 0 && b == f(a, a)
    ensures AllValid([a, b]) && LfpRefines(f, [a, b], [a]) && !RefinesSomePower(f, [a, b], [a])
  {
    assert InPower(f, [a], 1, a);
    NextInPower(f, [a], 2, a, a);
    LfpByStrings(f, [a, b], [a]);
    forall x | x in [a, b] ensures RefinesInLfp(f, x, [a]) {
      RefinesReflexive(x);
      assert RefinesInPower(f, x, [a], if x == a then 1 else 2);
    }
    forall n: nat | n >= 1 ensures !RefinesPower(f, [a, b], [a], n) {
      if RefinesPower(f, [a, b], [a], n) {
        OneFactorLength(f, a, a, n);
        OneFactorLength(f, a, b, n);
      }
    }
  }

  lemma OneFactorLength(f: Composition, a: PartialString, x: PartialString, n: nat)
    requires Lawful(f) && Valid(a) && a.length > 0 && RefinesInPower(f, x, [a], n)
    ensures x.length == n * a.length
  {
    RefinesSplits(f, x, [a], n);
    SplitsEvenly(Lengths([a]), x.length, a.length, n);
  }
}
