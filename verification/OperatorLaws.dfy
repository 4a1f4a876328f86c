/** Sequential and concurrent composition together: how the two operators on programs differ,
    and the exchange law that connects them. */
module OperatorLaws {
  import opened PartialStrings
  import opened RefinementLaws
  import opened ProgramPowers
  import opened LeastFixedPoints

  // ---- Strings --------------------------------------------------------------------------

  /** The ordered pairs of events. */
  ghost function OrderedPairs(x: PartialString): set<(nat, nat)>
  {
    set e: nat, f: nat | e < x.length && f < x.length && Before(x, e, f) :: (e, f)
  }

  ghost function Renumbered(pairs: set<(nat, nat)>, h: seq<nat>): set<(nat, nat)>
    requires forall p :: p in pairs ==> p.0 < |h| && p.1 < |h|
  {
    set p | p in pairs :: (h[p.0], h[p.1])
  }

  lemma {:induction false} RenumberedSize(pairs: set<(nat, nat)>, h: seq<nat>)
    requires forall p :: p in pairs ==> p.0 < |h| && p.1 < |h|
    requires forall e, f :: 0 <= e < f < |h| ==> h[e] != h[f]
    ensures |Renumbered(pairs, h)| == |pairs|
    decreases pairs
  {
    if pairs != {} {
      var p :| p in pairs;
      var rest := pairs - {p};
      RenumberedSize(rest, h);
      assert Renumbered(pairs, h) == Renumbered(rest, h) + {(h[p.0], h[p.1])};
      assert (h[p.0], h[p.1]) !in Renumbered(rest, h);
    }
  }

  lemma SmallerSize(s: set<(nat, nat)>, t: set<(nat, nat)>)
    requires s <= t
    ensures |s| <= |t|
    ensures s != t ==> |s| < |t|
  {
    assert t == s + (t - s);
    assert s != t ==> t - s != {};
  }

  /** A refinement has at least as many ordered pairs. */
  lemma RefinesOrdersMore(x: PartialString, y: PartialString)
    requires Refines(x, y)
    ensures |OrderedPairs(y)| <= |OrderedPairs(x)|
  {
    var h :| IsMorphism(h, y, x);
    var pairs := OrderedPairs(y);
    RenumberedSize(pairs, h);
    assert Renumbered(pairs, h) <= OrderedPairs(x);
    SmallerSize(Renumbered(pairs, h), OrderedPairs(x));
  }

  lemma UnionOrdersLess(p: PartialString, q: PartialString, x: PartialString, y: PartialString)
    requires IsUnion(p, x, y) && IsChain(q, x, y) && x.length > 0 && y.length > 0
    ensures |OrderedPairs(p)| < |OrderedPairs(q)|
  {
    assert SeqOrder(x, y, 0, x.length) && !ParOrder(x, y, 0, x.length);
    assert (0, x.length) in OrderedPairs(q) && (0, x.length) !in OrderedPairs(p);
    SmallerSize(OrderedPairs(p), OrderedPairs(q));
  }

  /** `x , y` refines `x | y`, and the other way around only if one of them is empty. */
  lemma OperatorsDiffer(x: PartialString, y: PartialString)
    requires Valid(x) && Valid(y)
    ensures Refines(Bowtie(Comma)(x, y), Bowtie(Bar)(x, y))
    ensures Refines(Bowtie(Bar)(x, y), Bowtie(Comma)(x, y)) <==> x.length == 0 || y.length == 0
  {
    SeqRefinesPar(x, y);
    BowtieComposes(Bar, x, y);
    BowtieComposes(Comma, x, y);
    var p, q := Bowtie(Bar)(x, y), Bowtie(Comma)(x, y);
    if x.length == 0 || y.length == 0 {
      StrongerOrderRefines(p, q);
    } else {
      UnionOrdersLess(p, q, x, y);
      if Refines(p, q) {
        RefinesOrdersMore(p, q);
      }
    }
  }

  // ---- Programs --------------------------------------------------------------------------

  /** `X , Y` refines `X | Y`. */
  lemma CommaRefinesBar(X: Program, Y: Program)
    requires AllValid(X) && AllValid(Y)
    ensures ProgramRefines(Products(Bowtie(Comma), X, Y), Products(Bowtie(Bar), X, Y))
  {
    forall p | p in Products(Bowtie(Comma), X, Y) ensures RefinesSome(p, Products(Bowtie(Bar), X, Y)) {
      ProductsMembers(Bowtie(Comma), X, Y, p);
      var x, y :| x in X && y in Y && p == Bowtie(Comma)(x, y);
      OperatorsDiffer(x, y);
      ProductsMembers(Bowtie(Bar), X, Y, Bowtie(Bar)(x, y));
    }
  }

  /** `(U | V) , (W | Z)` refines `(U , W) | (V , Z)`. */
  lemma ProgramExchange(U: Program, V: Program, W: Program, Z: Program)
    requires AllValid(U) && AllValid(V) && AllValid(W) && AllValid(Z)
    ensures ProgramRefines(
      Products(Bowtie(Comma), Products(Bowtie(Bar), U, V), Products(Bowtie(Bar), W, Z)),
      Products(Bowtie(Bar), Products(Bowtie(Comma), U, W), Products(Bowtie(Comma), V, Z)))
  {
    var bar, comma := Bowtie(Bar), Bowtie(Comma);
    var target := Products(bar, Products(comma, U, W), Products(comma, V, Z));
    forall p | p in Products(comma, Products(bar, U, V), Products(bar, W, Z)) ensures RefinesSome(p, target) {
      ProductsMembers(comma, Products(bar, U, V), Products(bar, W, Z), p);
      var a, b :| a in Products(bar, U, V) && b in Products(bar, W, Z) && p == comma(a, b);
      ProductsMembers(bar, U, V, a);
      ProductsMembers(bar, W, Z, b);
      var u, v :| u in U && v in V && a == bar(u, v);
      var w, z :| w in W && z in Z && b == bar(w, z);
      ExchangedMember(U, V, W, Z, u, v, w, z);
    }
  }

  lemma ExchangedMember(U: Program, V: Program, W: Program, Z: Program,
                        u: PartialString, v: PartialString, w: PartialString, z: PartialString)
    requires AllValid(U) && AllValid(V) && AllValid(W) && AllValid(Z)
    requires u in U && v in V && w in W && z in Z
    ensures RefinesSome(Bowtie(Comma)(Bowtie(Bar)(u, v), Bowtie(Bar)(w, z)),
                        Products(Bowtie(Bar), Products(Bowtie(Comma), U, W), Products(Bowtie(Comma), V, Z)))
  {
    var bar, comma := Bowtie(Bar), Bowtie(Comma);
    Exchange(u, v, w, z);
    ProductsMembers(comma, U, W, comma(u, w));
    ProductsMembers(comma, V, Z, comma(v, z));
    ProductsMembers(bar, Products(comma, U, W), Products(comma, V, Z), bar(comma(u, w), comma(v, z)));
  }

  // ---- Powers ------------------------------------------------------------------------------

  /** A sequential power refines the concurrent one. */
  lemma {:induction false} PowersOfCommaRefineBar(P: Program, n: nat)
    requires AllValid(P) && n >= 1
    ensures ProgramRefines(Power(Bowtie(Comma), P, n), Power(Bowtie(Bar), P, n))
    decreases n
  {
    if n == 1 {
      ProgramRefinesReflexive(P);
    } else {
      PowersOfCommaRefineBar(P, n - 1);
      NextPowerOfComma(P, n);
    }
  }

  lemma NextPowerOfComma(P: Program, n: nat)
    requires AllValid(P) && n > 1
    requires ProgramRefines(Power(Bowtie(Comma), P, n - 1), Power(Bowtie(Bar), P, n - 1))
    ensures ProgramRefines(Power(Bowtie(Comma), P, n), Power(Bowtie(Bar), P, n))
  {
    var bar, comma := Bowtie(Bar), Bowtie(Comma);
    var A, B := Power(comma, P, n - 1), Power(bar, P, n - 1);
    BowtieLawful(Bar);
    BowtieLawful(Comma);
    PowerValid(comma, P, n - 1);
    PowerValid(bar, P, n - 1);
    PowerUnfolds(comma, P, n);
    PowerUnfolds(bar, P, n);
    ProgramRefinesReflexive(P);
    ProductsMonotone(comma, A, P, B, P);
    CommaRefinesBar(B, P);
    ProgramRefinesTransitive(Products(comma, A, P), Products(comma, B, P), Products(bar, B, P));
  }

  /** Two copies of a string side by side are a concurrent power of it, but refine no sequential
      one. */
  lemma PairIsConcurrentPower(a: PartialString)
    requires Valid(a) && a.length > 0
    ensures Valid(Bowtie(Bar)(a, a))
    ensures RefinesSomePower(Bowtie(Bar), [Bowtie(Bar)(a, a)], [a])
    ensures !RefinesSomePower(Bowtie(Comma), [Bowtie(Bar)(a, a)], [a])
  {
    BowtieLawful(Bar);
    BowtieLawful(Comma);
    BowtieComposes(Bar, a, a);
    PairInBar(a);
    forall n: nat | n >= 1 ensures !RefinesPower(Bowtie(Comma), [Bowtie(Bar)(a, a)], [a], n) {
      if RefinesPower(Bowtie(Comma), [Bowtie(Bar)(a, a)], [a], n) {
        assert RefinesInPower(Bowtie(Comma), Bowtie(Bar)(a, a), [a], n);
        PairNotInComma(a, n);
      }
    }
  }

  lemma PairInBar(a: PartialString)
    requires Valid(a)
    ensures RefinesSomePower(Bowtie(Bar), [Bowtie(Bar)(a, a)], [a])
  {
    BowtieLawful(Bar);
    BowtieComposes(Bar, a, a);
    NextInPower(Bowtie(Bar), [a], 2, a, a);
    RefinesReflexive(Bowtie(Bar)(a, a));
    assert RefinesPower(Bowtie(Bar), [Bowtie(Bar)(a, a)], [a], 2);
  }

  lemma PairNotInComma(a: PartialString, n: nat)
    requires Valid(a) && a.length > 0
    ensures !RefinesInPower(Bowtie(Comma), Bowtie(Bar)(a, a), [a], n)
  {
    BowtieLawful(Comma);
    BowtieComposes(Bar, a, a);
    OperatorsDiffer(a, a);
    if RefinesInPower(Bowtie(Comma), Bowtie(Bar)(a, a), [a], n) {
      RefinesPair(Bowtie(Comma), a, Bowtie(Bar)(a, a), n);
    }
  }

  /** What is as long as two copies of `a` and refines a power of `a` refines the second one. */
  lemma RefinesPair(f: Composition, a: PartialString, p: PartialString, n: nat)
    requires Lawful(f) && Valid(a) && a.length > 0 && p.length == 2 * a.length && RefinesInPower(f, p, [a], n)
    ensures Refines(p, f(a, a))
  {
    OneFactorLength(f, a, p, n);
    SameFactor(n, 2, a.length);
    var q :| q in Power(f, [a], n) && Refines(p, q);
    var front, last := LastInPower(f, [a], n, q);
    var first, rest := LastInPower(f, [a], 1, front);
    assert q == f(a, a);
  }
}
