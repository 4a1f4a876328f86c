/** Refinement of partial strings and the laws of the two compositions. */
module RefinementLaws {
  import opened Orders
  import opened PartialStrings

  /** `h` maps the events of `y` one-to-one to those of `x`, keeping labels and order. */
  ghost predicate IsMorphism(h: seq<nat>, y: PartialString, x: PartialString)
  {
    && |h| == y.length == x.length == |y.labels| == |x.labels|
    && (forall e :: 0 <= e < |h| ==> h[e] < x.length && x.labels[h[e]] == y.labels[e])
    && (forall e, f :: 0 <= e < f < |h| ==> h[e] != h[f])
    && (forall e, f :: 0 <= e < |h| && 0 <= f < |h| && Before(y, e, f) ==> Before(x, h[e], h[f]))
  }

  /** `x` refines `y`: it has the same events under at least as strong an order. */
  ghost predicate Refines(x: PartialString, y: PartialString)
  {
    exists h :: IsMorphism(h, y, x)
  }

  lemma RefinesTransitive(x: PartialString, y: PartialString, z: PartialString)
    requires Refines(x, y) && Refines(y, z)
    ensures Refines(x, z)
  {
    var g :| IsMorphism(g, y, x);
    var h :| IsMorphism(h, z, y);
    var k := seq(|h|, e requires 0 <= e < |h| => g[h[e]]);
    assert IsMorphism(k, z, x);
  }

  /** The same events in the same places, with more of them ordered. */
  lemma StrongerOrderRefines(x: PartialString, y: PartialString)
    requires x.labels == y.labels && |x.labels| == x.length == y.length
    requires forall e: nat, f: nat :: Before(y, e, f) ==> Before(x, e, f)
    ensures Refines(x, y)
  {
    var h := seq(x.length, e requires 0 <= e < x.length => e);
    assert IsMorphism(h, y, x);
  }

  lemma RefinesReflexive(x: PartialString)
    requires Valid(x)
    ensures Refines(x, x)
  {
    StrongerOrderRefines(x, x);
  }

  /** Sequential composition refines concurrent composition. */
  lemma SeqRefinesPar(x: PartialString, y: PartialString)
    requires Valid(x) && Valid(y)
    ensures Refines(Seq(x, y), Par(x, y))
  {
    forall e: nat, f: nat ensures Before(Par(x, y), e, f) ==> Before(Seq(x, y), e, f) {
      ParClosure(x, y, e, f);
      SeqClosure(x, y, e, f);
    }
    StrongerOrderRefines(Seq(x, y), Par(x, y));
  }

  /** Two renumberings side by side. */
  function Beside(g: seq<nat>, h: seq<nat>): (k: seq<nat>)
    ensures |k| == |g| + |h|
    ensures forall e :: 0 <= e < |g| ==> k[e] == g[e]
    ensures forall e :: |g| <= e < |k| ==> k[e] == |g| + h[e - |g|]
  {
    g + Moved(h, |g|)
  }

  lemma BesideParOrder(g: seq<nat>, h: seq<nat>, x: PartialString, y: PartialString, x': PartialString,
                       y': PartialString,
                       e: nat, f: nat)
    requires IsMorphism(g, x', x) && IsMorphism(h, y', y)
    requires ParOrder(x', y', e, f)
    ensures e < |g| + |h| && f < |g| + |h| && ParOrder(x, y, Beside(g, h)[e], Beside(g, h)[f])
  {
    if InFirst(x', e) {
      assert Before(x, g[e], g[f]);
    } else {
      assert Before(y, h[e - |g|], h[f - |g|]);
    }
  }

  lemma BesideMaps(g: seq<nat>, h: seq<nat>, x: PartialString, y: PartialString, x': PartialString, y': PartialString)
    requires IsMorphism(g, x', x) && IsMorphism(h, y', y)
    ensures var k := Beside(g, h);
      && (forall e :: 0 <= e < |k| ==>
            k[e] < x.length + y.length && (x.labels + y.labels)[k[e]] == (x'.labels + y'.labels)[e])
      && (forall e, f :: 0 <= e < f < |k| ==> k[e] != k[f])
      && (forall e :: 0 <= e < |k| ==> (k[e] < x.length <==> e < x'.length))
  {
  }

  /** Both compositions are monotone in each argument. */
  lemma ParMonotone(x: PartialString, y: PartialString, x': PartialString, y': PartialString)
    requires Valid(x) && Valid(y) && Valid(x') && Valid(y')
    requires Refines(x, x') && Refines(y, y')
    ensures Refines(Par(x, y), Par(x', y'))
  {
    var g :| IsMorphism(g, x', x);
    var h :| IsMorphism(h, y', y);
    var k := Beside(g, h);
    BesideMaps(g, h, x, y, x', y');
    forall e, f | 0 <= e < |k| && 0 <= f < |k| && Before(Par(x', y'), e, f) ensures Before(Par(x, y), k[e], k[f]) {
      ParClosure(x', y', e, f);
      BesideParOrder(g, h, x, y, x', y', e, f);
      ParClosure(x, y, k[e], k[f]);
    }
    assert IsMorphism(k, Par(x', y'), Par(x, y));
  }

  lemma SeqMonotone(x: PartialString, y: PartialString, x': PartialString, y': PartialString)
    requires Valid(x) && Valid(y) && Valid(x') && Valid(y')
    requires Refines(x, x') && Refines(y, y')
    ensures Refines(Seq(x, y), Seq(x', y'))
  {
    var g :| IsMorphism(g, x', x);
    var h :| IsMorphism(h, y', y);
    var k := Beside(g, h);
    BesideMaps(g, h, x, y, x', y');
    forall e, f | 0 <= e < |k| && 0 <= f < |k| && Before(Seq(x', y'), e, f) ensures Before(Seq(x, y), k[e], k[f]) {
      SeqClosure(x', y', e, f);
      if ParOrder(x', y', e, f) {
        BesideParOrder(g, h, x, y, x', y', e, f);
      }
      SeqClosure(x, y, k[e], k[f]);
    }
    assert IsMorphism(k, Seq(x', y'), Seq(x, y));
  }

  // ---- The exchange law -------------------------------------------------------------

  /** Where the events of `(u , w) | (v , z)` go in `(u | v) , (w | z)`: the two middle
      blocks change places. */
  function Exchanged(a: nat, b: nat, c: nat, d: nat): (h: seq<nat>)
    ensures |h| == a + b + c + d
  {
    seq(a + b + c + d, e requires 0 <= e < a + b + c + d =>
      if e < a then e else if e < a + c then e + b else if e < a + c + b then e - c else e)
  }

  /** `p` has the order of the disjoint union of `x` and `y`. */
  ghost predicate IsUnion(p: PartialString, x: PartialString, y: PartialString)
  {
    && p.length == x.length + y.length && p.labels == x.labels + y.labels
    && forall e: nat, f: nat :: Before(p, e, f) <==> ParOrder(x, y, e, f)
  }

  ghost predicate IsChain(p: PartialString, x: PartialString, y: PartialString)
  {
    && p.length == x.length + y.length && p.labels == x.labels + y.labels
    && forall e: nat, f: nat :: Before(p, e, f) <==> SeqOrder(x, y, e, f)
  }

  lemma ParIsUnion(x: PartialString, y: PartialString)
    requires Valid(x) && Valid(y)
    ensures IsUnion(Par(x, y), x, y) && Valid(Par(x, y))
  {
    CompositionsValid(x, y);
    forall e: nat, f: nat ensures Before(Par(x, y), e, f) <==> ParOrder(x, y, e, f) {
      ParClosure(x, y, e, f);
    }
  }

  lemma SeqIsChain(x: PartialString, y: PartialString)
    requires Valid(x) && Valid(y)
    ensures IsChain(Seq(x, y), x, y) && Valid(Seq(x, y))
  {
    CompositionsValid(x, y);
    forall e: nat, f: nat ensures Before(Seq(x, y), e, f) <==> SeqOrder(x, y, e, f) {
      SeqClosure(x, y, e, f);
    }
  }

  /** The left half of the source: what is ordered by `u , w`. */
  lemma ExchangeFirst(u: PartialString, v: PartialString, w: PartialString, z: PartialString,
                      p: PartialString, q: PartialString, e: nat, f: nat)
    requires IsUnion(p, u, v) && IsUnion(q, w, z) && SeqOrder(u, w, e, f)
    ensures var b := v.length;
      SeqOrder(p, q, if e < u.length then e else e + b, if f < u.length then f else f + b)
  {
    var a, b := u.length, v.length;
    if e < a && f < a {
      assert Before(p, e, f);
    } else if e >= a {
      assert Before(q, e - a, f - a);
    }
  }

  /** The right half: what is ordered by `v , z`; events numbered within it. */
  lemma ExchangeSecond(u: PartialString, v: PartialString, w: PartialString, z: PartialString,
                       p: PartialString, q: PartialString, e: nat, f: nat)
    requires IsUnion(p, u, v) && IsUnion(q, w, z) && SeqOrder(v, z, e, f)
    ensures var a, c := u.length, w.length;
      SeqOrder(p, q, if e < v.length then a + e else a + c + e, if f < v.length then a + f else a + c + f)
  {
    var a, b, c := u.length, v.length, w.length;
    if e < b && f < b {
      assert Before(p, a + e, a + f);
    } else if e >= b {
      assert Before(q, c + (e - b), c + (f - b));
    }
  }

  lemma ExchangeOrder(u: PartialString, v: PartialString, w: PartialString, z: PartialString,
                      p: PartialString, q: PartialString, r: PartialString, s: PartialString, e: nat, f: nat)
    requires IsUnion(p, u, v) && IsUnion(q, w, z) && IsChain(r, u, w) && IsChain(s, v, z)
    requires ParOrder(r, s, e, f)
    ensures var h := Exchanged(u.length, v.length, w.length, z.length);
      e < |h| && f < |h| && SeqOrder(p, q, h[e], h[f])
  {
    var n := u.length + w.length;
    if e < n {
      ExchangeFirst(u, v, w, z, p, q, e, f);
    } else {
      ExchangeSecond(u, v, w, z, p, q, e - n, f - n);
    }
  }

  lemma ExchangeLabels(u: PartialString, v: PartialString, w: PartialString, z: PartialString)
    requires Valid(u) && Valid(v) && Valid(w) && Valid(z)
    ensures var h := Exchanged(u.length, v.length, w.length, z.length);
      forall e :: 0 <= e < |h| ==>
        && h[e] < |h|
        && ((u.labels + v.labels) + (w.labels + z.labels))[h[e]] == ((u.labels + w.labels) + (v.labels + z.labels))[e]
  {
  }

  /** Running `w | z` after `u | v` is one way of running `u , w` and `v , z` side by side. */
  lemma Exchange(u: PartialString, v: PartialString, w: PartialString, z: PartialString)
    requires Valid(u) && Valid(v) && Valid(w) && Valid(z)
    ensures Refines(Seq(Par(u, v), Par(w, z)), Par(Seq(u, w), Seq(v, z)))
  {
    var h := Exchanged(u.length, v.length, w.length, z.length);
    var p, q, r, s := Par(u, v), Par(w, z), Seq(u, w), Seq(v, z);
    ParIsUnion(u, v);
    ParIsUnion(w, z);
    SeqIsChain(u, w);
    SeqIsChain(v, z);
    ExchangeLabels(u, v, w, z);
    ExchangeMorphism(u, v, w, z, p, q, r, s);
    assert IsMorphism(h, Par(r, s), Seq(p, q));
  }

  lemma ExchangeMorphism(u: PartialString, v: PartialString, w: PartialString, z: PartialString,
                         p: PartialString, q: PartialString, r: PartialString, s: PartialString)
    requires IsUnion(p, u, v) && IsUnion(q, w, z) && IsChain(r, u, w) && IsChain(s, v, z)
    requires Valid(p) && Valid(q) && Valid(r) && Valid(s)
    ensures var h := Exchanged(u.length, v.length, w.length, z.length);
      && (forall e, f :: 0 <= e < |h| && 0 <= f < |h| && Before(Par(r, s), e, f) ==> Before(Seq(p, q), h[e], h[f]))
      && (forall e, f :: 0 <= e < f < |h| ==> h[e] != h[f])
  {
    var h := Exchanged(u.length, v.length, w.length, z.length);
    forall e: nat, f: nat | e < |h| && f < |h| && Before(Par(r, s), e, f) ensures Before(Seq(p, q), h[e], h[f]) {
      ParClosure(r, s, e, f);
      ExchangeOrder(u, v, w, z, p, q, r, s, e, f);
      SeqClosure(p, q, h[e], h[f]);
    }
  }

  // ---- Units and associativity ---------------------------------------------------------

  /** The empty partial string is a left unit of both compositions, exactly. */
  lemma EmptyUnit(x: PartialString)
    requires Valid(x)
    ensures Seq(EMPTY, x) == x && Par(EMPTY, x) == x
  {
    assert Shift(x.order, 0) == x.order && Shift(x.incomparables, 0) == x.incomparables;
    assert [] + x.order == x.order && [] + x.incomparables == x.incomparables && [] + x.labels == x.labels;
    assert Unset([]) == [] && Pairs([], Moved(Unset(x.nonMinimal), 0)) == [];
    assert Interval(0, 0) == [] && Pairs([], Interval(0, x.length)) == [];
    assert x.order + [] == x.order && x.incomparables + [] == x.incomparables;
  }

  ghost predicate SameOrder(x: PartialString, y: PartialString)
  {
    && x.labels == y.labels && |x.labels| == x.length == y.length
    && forall e: nat, f: nat :: Before(x, e, f) <==> Before(y, e, f)
  }

  lemma SeqAssociative(x: PartialString, y: PartialString, z: PartialString)
    requires Valid(x) && Valid(y) && Valid(z)
    ensures SameOrder(Seq(Seq(x, y), z), Seq(x, Seq(y, z)))
  {
    SeqIsChain(x, y);
    SeqIsChain(y, z);
    var p, q := Seq(x, y), Seq(y, z);
    SeqAssociativeFrom(x, y, z, p, q);
  }

  lemma SeqAssociativeFrom(x: PartialString, y: PartialString, z: PartialString, p: PartialString, q: PartialString)
    requires Valid(x) && Valid(y) && Valid(z) && Valid(p) && Valid(q) && IsChain(p, x, y) && IsChain(q, y, z)
    ensures SameOrder(Seq(p, z), Seq(x, q))
  {
    SeqIsChain(p, z);
    SeqIsChain(x, q);
    ChainsAssociate(x, y, z, p, q, Seq(p, z), Seq(x, q));
  }

  lemma ChainsAssociate(x: PartialString, y: PartialString, z: PartialString, p: PartialString, q: PartialString,
                        l: PartialString, r: PartialString)
    requires IsChain(p, x, y) && IsChain(q, y, z) && IsChain(l, p, z) && IsChain(r, x, q)
    requires |x.labels| == x.length && |y.labels| == y.length && |z.labels| == z.length
    ensures SameOrder(l, r)
  {
    forall e: nat, f: nat ensures Before(l, e, f) <==> Before(r, e, f) {
      var a := x.length;
      assert Before(l, e, f) <==> SeqOrder(p, z, e, f);
      assert Before(r, e, f) <==> SeqOrder(x, q, e, f);
      assert Before(p, e, f) <==> SeqOrder(x, y, e, f);
      if a <= e && a <= f {
        assert Before(q, e - a, f - a) <==> SeqOrder(y, z, e - a, f - a);
      }
    }
    assert (x.labels + y.labels) + z.labels == x.labels + (y.labels + z.labels);
  }

  lemma ParAssociative(x: PartialString, y: PartialString, z: PartialString)
    requires Valid(x) && Valid(y) && Valid(z)
    ensures SameOrder(Par(Par(x, y), z), Par(x, Par(y, z)))
  {
    ParIsUnion(x, y);
    ParIsUnion(y, z);
    var p, q := Par(x, y), Par(y, z);
    ParAssociativeFrom(x, y, z, p, q);
  }

  lemma ParAssociativeFrom(x: PartialString, y: PartialString, z: PartialString, p: PartialString, q: PartialString)
    requires Valid(x) && Valid(y) && Valid(z) && Valid(p) && Valid(q) && IsUnion(p, x, y) && IsUnion(q, y, z)
    ensures SameOrder(Par(p, z), Par(x, q))
  {
    ParIsUnion(p, z);
    ParIsUnion(x, q);
    UnionsAssociate(x, y, z, p, q, Par(p, z), Par(x, q));
  }

  lemma UnionsAssociate(x: PartialString, y: PartialString, z: PartialString, p: PartialString, q: PartialString,
                        l: PartialString, r: PartialString)
    requires IsUnion(p, x, y) && IsUnion(q, y, z) && IsUnion(l, p, z) && IsUnion(r, x, q)
    requires |x.labels| == x.length && |y.labels| == y.length && |z.labels| == z.length
    ensures SameOrder(l, r)
  {
    forall e: nat, f: nat ensures Before(l, e, f) <==> Before(r, e, f) {
      var a := x.length;
      assert Before(l, e, f) <==> ParOrder(p, z, e, f);
      assert Before(r, e, f) <==> ParOrder(x, q, e, f);
      assert Before(p, e, f) <==> ParOrder(x, y, e, f);
      if a <= e && a <= f {
        assert Before(q, e - a, f - a) <==> ParOrder(y, z, e - a, f - a);
      }
    }
    assert (x.labels + y.labels) + z.labels == x.labels + (y.labels + z.labels);
  }
}
