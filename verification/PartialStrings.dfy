/** Finite partial strings: labelled events under a strict partial order, stored as its
    transitive reduction, with concurrent and strongly sequential composition. */
module PartialStrings {
  import opened Orders

  type Label = nat

  datatype PartialString = PartialString(
    labels: seq<Label>,
    order: Edges,
    length: nat,
    incomparables: Edges,
    nonMinimal: seq<bool>,
    nonMaximal: seq<bool>,
    minLabel: Label,
    maxLabel: Label)

  function Min(a: nat, b: nat): nat { if b < a then b else a }
  function Max(a: nat, b: nat): nat { if a < b then b else a }

  // ---- Construction ----------------------------------------------------------------

  const EMPTY := PartialString([], [], 0, [], [], [], 0, 0)

  function Single(l: Label): PartialString
  {
    PartialString([l], [], 1, [], [false], [false], l, l)
  }

  /** Events with an edge out of, or into, them. */
  function Sources(edges: Edges, n: nat): (r: seq<bool>)
    ensures |r| == n
  {
    seq(n, e requires 0 <= e < n => exists p | p in edges :: p.0 == e)
  }

  function Targets(edges: Edges, n: nat): (r: seq<bool>)
    ensures |r| == n
  {
    seq(n, e requires 0 <= e < n => exists p | p in edges :: p.1 == e)
  }

  /** The positions holding `false`, in ascending order. */
  function Unset(flags: seq<bool>): seq<nat>
  {
    if flags == [] then []
    else
      var k := |flags| - 1;
      Unset(flags[..k]) + if flags[k] then [] else [k]
  }

  lemma {:induction false} UnsetMembers(flags: seq<bool>, e: nat)
    ensures e in Unset(flags) <==> e < |flags| && !flags[e]
  {
    if flags != [] {
      UnsetMembers(flags[..|flags| - 1], e);
    }
  }

  function Row(a: nat, ys: seq<nat>): Edges
  {
    if ys == [] then [] else Row(a, ys[..|ys| - 1]) + [(a, ys[|ys| - 1])]
  }

  lemma {:induction false} RowMembers(a: nat, ys: seq<nat>, p: (nat, nat))
    ensures p in Row(a, ys) <==> p.0 == a && p.1 in ys
  {
    if ys != [] {
      RowMembers(a, ys[..|ys| - 1], p);
      assert ys == ys[..|ys| - 1] + [ys[|ys| - 1]];
    }
  }

  function Pairs(xs: seq<nat>, ys: seq<nat>): Edges
  {
    if xs == [] then [] else Pairs(xs[..|xs| - 1], ys) + Row(xs[|xs| - 1], ys)
  }

  lemma {:induction false} PairsMembers(xs: seq<nat>, ys: seq<nat>, p: (nat, nat))
    ensures p in Pairs(xs, ys) <==> p.0 in xs && p.1 in ys
  {
    if xs != [] {
      PairsMembers(xs[..|xs| - 1], ys, p);
      RowMembers(xs[|xs| - 1], ys, p);
      assert xs == xs[..|xs| - 1] + [xs[|xs| - 1]];
    }
  }

  function Interval(m: nat, n: nat): (r: seq<nat>)
    requires m <= n
    ensures |r| == n - m && forall i :: 0 <= i < |r| ==> r[i] == m + i
  {
    seq(n - m, i requires 0 <= i < n - m => m + i)
  }

  lemma IntervalMembers(m: nat, n: nat, e: nat)
    requires m <= n
    ensures e in Interval(m, n) <==> m <= e < n
  {
    if m <= e < n {
      assert Interval(m, n)[e - m] == e;
    }
  }

  function Moved(es: seq<nat>, offset: nat): (r: seq<nat>)
    ensures |r| == |es| && forall i :: 0 <= i < |r| ==> r[i] == offset + es[i]
  {
    seq(|es|, i requires 0 <= i < |es| => offset + es[i])
  }

  lemma MovedMembers(es: seq<nat>, offset: nat, e: nat)
    ensures e in Moved(es, offset) <==> e >= offset && e - offset in es
  {
    if e >= offset && e - offset in es {
      var i :| 0 <= i < |es| && es[i] == e - offset;
      assert Moved(es, offset)[i] == e;
    }
  }

  /** Disjoint union, before the extremal events are known. */
  function Coproduct(x: PartialString, y: PartialString): PartialString
  {
    PartialString(
      x.labels + y.labels,
      x.order + Shift(y.order, x.length),
      x.length + y.length,
      x.incomparables + Shift(y.incomparables, x.length),
      seq(x.length + y.length, _ => false),
      seq(x.length + y.length, _ => false),
      if y.length == 0 then x.minLabel else if x.length == 0 then y.minLabel else Min(x.minLabel, y.minLabel),
      Max(x.maxLabel, y.maxLabel))
  }

  function WithExtremals(z: PartialString): PartialString
  {
    z.(nonMaximal := Sources(z.order, z.length), nonMinimal := Targets(z.order, z.length))
  }

  /** Concurrent composition: everything in `x` is incomparable to everything in `y`. */
  function Par(x: PartialString, y: PartialString): PartialString
  {
    var z := WithExtremals(Coproduct(x, y));
    z.(incomparables := z.incomparables + Pairs(Interval(0, x.length), Interval(x.length, x.length + y.length)))
  }

  /** Strongly sequential composition: the maximal events of `x` come right before the
      minimal events of `y`. */
  function Seq(x: PartialString, y: PartialString): PartialString
  {
    var z := Coproduct(x, y);
    WithExtremals(z.(order := z.order + Pairs(Unset(x.nonMaximal), Moved(Unset(y.nonMinimal), x.length))))
  }

  // ---- What a partial string means ---------------------------------------------------

  /** The strict partial order itself. */
  ghost predicate Before(x: PartialString, e: nat, f: nat)
  {
    Closure(x.order, e, f)
  }

  ghost predicate Listed(x: PartialString, e: nat, f: nat)
  {
    (e, f) in x.incomparables || (f, e) in x.incomparables
  }

  ghost predicate LabelBounds(x: PartialString)
  {
    if x.labels == [] then x.minLabel == 0 && x.maxLabel == 0
    else
      && x.minLabel in x.labels && x.maxLabel in x.labels
      && forall l :: l in x.labels ==> x.minLabel <= l <= x.maxLabel
  }

  ghost predicate EdgesInRange(edges: Edges, n: nat)
  {
    forall p :: p in edges ==> p.0 < n && p.1 < n
  }

  /** The order is strict; the extremal flags are exact. */
  ghost predicate StrictOrder(x: PartialString)
  {
    && EdgesInRange(x.order, x.length)
    && (forall e: nat :: !Before(x, e, e))
    && x.nonMaximal == Sources(x.order, x.length)
    && x.nonMinimal == Targets(x.order, x.length)
  }

  /** No stored edge follows from others. */
  ghost predicate TransitiveReduction(x: PartialString)
  {
    forall p, c: nat :: p in x.order ==> !(Before(x, p.0, c) && Before(x, c, p.1))
  }

  /** Any two different events are ordered one way or listed as incomparable, never both. */
  ghost predicate ComparableOrListed(x: PartialString)
  {
    && (forall p :: p in x.incomparables ==> p.0 < x.length && p.1 < x.length && p.0 != p.1)
    && (forall e: nat, f: nat :: e < x.length && f < x.length && e != f ==>
          (Listed(x, e, f) <==> !Before(x, e, f) && !Before(x, f, e)))
  }

  ghost predicate Valid(x: PartialString)
  {
    && |x.labels| == x.length
    && StrictOrder(x) && TransitiveReduction(x) && ComparableOrListed(x) && LabelBounds(x)
  }

  lemma InRange(edges: Edges, n: nat, e: nat, f: nat)
    requires EdgesInRange(edges, n) && Closure(edges, e, f)
    ensures e < n && f < n
  {
    var c := FirstEdge(edges, e, f);
    var d := LastEdge(edges, e, f);
  }

  /** A flag is unset exactly on extremal events. */
  lemma FlagsExact(x: PartialString, e: nat)
    requires StrictOrder(x) && e < x.length
    ensures !x.nonMaximal[e] <==> forall f: nat :: !Before(x, e, f)
    ensures !x.nonMinimal[e] <==> forall f: nat :: !Before(x, f, e)
  {
    forall f: nat ensures Before(x, e, f) ==> x.nonMaximal[e] {
      if Before(x, e, f) {
        var c := FirstEdge(x.order, e, f);
      }
    }
    forall f: nat ensures Before(x, f, e) ==> x.nonMinimal[e] {
      if Before(x, f, e) {
        var c := LastEdge(x.order, f, e);
      }
    }
    if x.nonMaximal[e] {
      var p :| p in x.order && p.0 == e;
      EdgeInClosure(x.order, e, p.1);
      assert Before(x, e, p.1);
    }
    if x.nonMinimal[e] {
      var p :| p in x.order && p.1 == e;
      EdgeInClosure(x.order, p.0, e);
      assert Before(x, p.0, e);
    }
  }

  /** Events above `e`. */
  ghost function Above(x: PartialString, e: nat): set<nat>
  {
    set f: nat | f < x.length && Before(x, e, f)
  }

  ghost function Below(x: PartialString, e: nat): set<nat>
  {
    set f: nat | f < x.length && Before(x, f, e)
  }

  /** Every event lies below or at a maximal one, and above or at a minimal one. */
  lemma {:induction false} SomeMaximal(x: PartialString, e: nat) returns (f: nat)
    requires StrictOrder(x) && e < x.length
    ensures f < x.length && !x.nonMaximal[f] && (f == e || Before(x, e, f))
    decreases |Above(x, e)|
  {
    if !x.nonMaximal[e] {
      f := e;
    } else {
      var p :| p in x.order && p.0 == e;
      EdgeInClosure(x.order, e, p.1);
      forall g | g in Above(x, p.1) ensures g in Above(x, e) {
        ClosureTransitive(x.order, e, p.1, g);
      }
      assert p.1 in Above(x, e) && p.1 !in Above(x, p.1);
      ProperSubset(Above(x, p.1), Above(x, e));
      f := SomeMaximal(x, p.1);
      if f != p.1 {
        ClosureTransitive(x.order, e, p.1, f);
      }
    }
  }

  lemma {:induction false} SomeMinimal(x: PartialString, e: nat) returns (f: nat)
    requires StrictOrder(x) && e < x.length
    ensures f < x.length && !x.nonMinimal[f] && (f == e || Before(x, f, e))
    decreases |Below(x, e)|
  {
    if !x.nonMinimal[e] {
      f := e;
    } else {
      var p :| p in x.order && p.1 == e;
      EdgeInClosure(x.order, p.0, e);
      forall g | g in Below(x, p.0) ensures g in Below(x, e) {
        ClosureTransitive(x.order, g, p.0, e);
      }
      assert p.0 in Below(x, e) && p.0 !in Below(x, p.0);
      ProperSubset(Below(x, p.0), Below(x, e));
      f := SomeMinimal(x, p.0);
      if f != p.0 {
        ClosureTransitive(x.order, f, p.0, e);
      }
    }
  }

  lemma ProperSubset(s: set<nat>, t: set<nat>)
    requires s < t
    ensures |s| < |t|
  {
    var d := t - s;
    assert t == s + d && d != {};
  }

  // ---- Orders of compositions ---------------------------------------------------------

  ghost predicate InFirst(x: PartialString, e: nat) { e < x.length }

  ghost predicate InSecond(x: PartialString, y: PartialString, e: nat) { x.length <= e < x.length + y.length }

  /** The order of the disjoint union: each side keeps its own. */
  ghost predicate ParOrder(x: PartialString, y: PartialString, e: nat, f: nat)
  {
    || (InFirst(x, e) && InFirst(x, f) && Before(x, e, f))
    || (InSecond(x, y, e) && InSecond(x, y, f) && Before(y, e - x.length, f - x.length))
  }

  /** Sequential composition adds all pairs across. */
  ghost predicate SeqOrder(x: PartialString, y: PartialString, e: nat, f: nat)
  {
    ParOrder(x, y, e, f) || (InFirst(x, e) && InSecond(x, y, f))
  }

  /** The edges of the compositions. */
  function ParEdgesOf(x: PartialString, y: PartialString): Edges
  {
    x.order + Shift(y.order, x.length)
  }

  function SeqEdgesOf(x: PartialString, y: PartialString): Edges
  {
    ParEdgesOf(x, y) + Pairs(Unset(x.nonMaximal), Moved(Unset(y.nonMinimal), x.length))
  }

  lemma ParEdges(x: PartialString, y: PartialString, p: (nat, nat))
    requires StrictOrder(x) && StrictOrder(y)
    ensures p in ParEdgesOf(x, y) <==>
      p in x.order || (p.0 >= x.length && p.1 >= x.length && (p.0 - x.length, p.1 - x.length) in y.order)
  {
    ShiftMembers(y.order, x.length, p);
  }

  lemma SeqEdges(x: PartialString, y: PartialString, p: (nat, nat))
    requires |x.nonMaximal| == x.length && |y.nonMinimal| == y.length
    ensures p in SeqEdgesOf(x, y) <==>
      p in ParEdgesOf(x, y) ||
      (InFirst(x, p.0) && !x.nonMaximal[p.0] && InSecond(x, y, p.1) && !y.nonMinimal[p.1 - x.length])
  {
    PairsMembers(Unset(x.nonMaximal), Moved(Unset(y.nonMinimal), x.length), p);
    UnsetMembers(x.nonMaximal, p.0);
    MovedMembers(Unset(y.nonMinimal), x.length, p.1);
    if p.1 >= x.length {
      UnsetMembers(y.nonMinimal, p.1 - x.length);
    }
  }

  ghost function ParRelation(x: PartialString, y: PartialString): (nat, nat) -> bool
  {
    (e: nat, f: nat) => ParOrder(x, y, e, f)
  }

  ghost function SeqRelation(x: PartialString, y: PartialString): (nat, nat) -> bool
  {
    (e: nat, f: nat) => SeqOrder(x, y, e, f)
  }

  lemma ParOrderChains(x: PartialString, y: PartialString, e: nat, c: nat, f: nat)
    requires ParOrder(x, y, e, c) && ParOrder(x, y, c, f)
    ensures ParOrder(x, y, e, f)
  {
    if InFirst(x, e) {
      ClosureTransitive(x.order, e, c, f);
    } else {
      ClosureTransitive(y.order, e - x.length, c - x.length, f - x.length);
    }
  }

  lemma ParTransitive(x: PartialString, y: PartialString)
    ensures Transitive(ParRelation(x, y))
  {
    forall e: nat, c: nat, f: nat | ParOrder(x, y, e, c) && ParOrder(x, y, c, f) ensures ParOrder(x, y, e, f) {
      ParOrderChains(x, y, e, c, f);
    }
  }

  lemma SeqTransitive(x: PartialString, y: PartialString)
    ensures Transitive(SeqRelation(x, y))
  {
    forall e: nat, c: nat, f: nat | SeqOrder(x, y, e, c) && SeqOrder(x, y, c, f) ensures SeqOrder(x, y, e, f) {
      if ParOrder(x, y, e, c) && ParOrder(x, y, c, f) {
        ParOrderChains(x, y, e, c, f);
      }
    }
  }

  /** The closure of the disjoint union. */
  lemma ParClosure(x: PartialString, y: PartialString, e: nat, f: nat)
    requires StrictOrder(x) && StrictOrder(y)
    ensures Before(Par(x, y), e, f) <==> ParOrder(x, y, e, f)
  {
    ParEdgesClosure(x, y, e, f);
  }

  lemma ParEdgesClosure(x: PartialString, y: PartialString, e: nat, f: nat)
    requires StrictOrder(x) && StrictOrder(y)
    ensures Closure(ParEdgesOf(x, y), e, f) <==> ParOrder(x, y, e, f)
  {
    if Closure(ParEdgesOf(x, y), e, f) {
      ParTransitive(x, y);
      forall p | p in ParEdgesOf(x, y) ensures ParRelation(x, y)(p.0, p.1) {
        ParEdges(x, y, p);
        EdgeOrdered(x, y, p);
      }
      ClosureIsLeast(ParEdgesOf(x, y), ParRelation(x, y), e, f);
    }
    if ParOrder(x, y, e, f) {
      ParIncludes(x, y, e, f);
    }
  }

  lemma ParIncludes(x: PartialString, y: PartialString, e: nat, f: nat)
    requires StrictOrder(x) && StrictOrder(y) && ParOrder(x, y, e, f)
    ensures Closure(ParEdgesOf(x, y), e, f)
  {
    if InFirst(x, e) {
      ClosureMonotone(x.order, ParEdgesOf(x, y), e, f);
    } else {
      ClosureShift(y.order, x.length, e - x.length, f - x.length);
      ClosureMonotone(Shift(y.order, x.length), ParEdgesOf(x, y), e, f);
    }
  }

  lemma EdgeOrdered(x: PartialString, y: PartialString, p: (nat, nat))
    requires StrictOrder(x) && StrictOrder(y)
    ensures p in x.order ==> ParOrder(x, y, p.0, p.1)
    ensures p.0 >= x.length && p.1 >= x.length && (p.0 - x.length, p.1 - x.length) in y.order ==>
      ParOrder(x, y, p.0, p.1)
  {
    if p in x.order {
      EdgeInClosure(x.order, p.0, p.1);
    }
    if p.0 >= x.length && p.1 >= x.length && (p.0 - x.length, p.1 - x.length) in y.order {
      EdgeInClosure(y.order, p.0 - x.length, p.1 - x.length);
      assert (p.0 - x.length, p.1 - x.length).0 < y.length;
    }
  }

  /** The closure of a sequential composition is both closures and all cross pairs. */
  lemma SeqClosure(x: PartialString, y: PartialString, e: nat, f: nat)
    requires StrictOrder(x) && StrictOrder(y)
    ensures Before(Seq(x, y), e, f) <==> SeqOrder(x, y, e, f)
  {
    SeqEdgesClosure(x, y, e, f);
  }

  lemma SeqEdgesClosure(x: PartialString, y: PartialString, e: nat, f: nat)
    requires StrictOrder(x) && StrictOrder(y)
    ensures Closure(SeqEdgesOf(x, y), e, f) <==> SeqOrder(x, y, e, f)
  {
    if Closure(SeqEdgesOf(x, y), e, f) {
      SeqTransitive(x, y);
      forall p | p in SeqEdgesOf(x, y) ensures SeqRelation(x, y)(p.0, p.1) {
        SeqEdges(x, y, p);
        ParEdges(x, y, p);
        EdgeOrdered(x, y, p);
      }
      ClosureIsLeast(SeqEdgesOf(x, y), SeqRelation(x, y), e, f);
    }
    if ParOrder(x, y, e, f) {
      SeqIncludes(x, y, e, f);
    } else if InFirst(x, e) && InSecond(x, y, f) {
      CrossPair(x, y, e, f);
    }
  }

  /** Every pair across is connected through a maximal and a minimal event. */
  lemma CrossPair(x: PartialString, y: PartialString, e: nat, f: nat)
    requires StrictOrder(x) && StrictOrder(y)
    requires InFirst(x, e) && InSecond(x, y, f)
    ensures Closure(SeqEdgesOf(x, y), e, f)
  {
    var g := f - x.length;
    var b := SomeMinimal(y, g);
    BelowMinimal(x, y, e, b);
    if b != g {
      InSecondSeq(x, y, b, g);
      ClosureTransitive(SeqEdgesOf(x, y), e, x.length + b, f);
    }
  }

  lemma InSecondSeq(x: PartialString, y: PartialString, b: nat, g: nat)
    requires Before(y, b, g)
    ensures Closure(SeqEdgesOf(x, y), x.length + b, x.length + g)
  {
    ClosureShift(y.order, x.length, b, g);
    ClosureMonotone(Shift(y.order, x.length), SeqEdgesOf(x, y), x.length + b, x.length + g);
  }

  lemma BelowMinimal(x: PartialString, y: PartialString, e: nat, b: nat)
    requires StrictOrder(x) && StrictOrder(y)
    requires InFirst(x, e) && b < y.length && !y.nonMinimal[b]
    ensures Closure(SeqEdgesOf(x, y), e, x.length + b)
  {
    var a := SomeMaximal(x, e);
    SeqEdges(x, y, (a, x.length + b));
    EdgeInClosure(SeqEdgesOf(x, y), a, x.length + b);
    if a != e {
      assert ParOrder(x, y, e, a);
      SeqIncludes(x, y, e, a);
      ClosureTransitive(SeqEdgesOf(x, y), e, a, x.length + b);
    }
  }

  lemma SeqIncludes(x: PartialString, y: PartialString, e: nat, f: nat)
    requires StrictOrder(x) && StrictOrder(y) && ParOrder(x, y, e, f)
    ensures Closure(SeqEdgesOf(x, y), e, f)
  {
    ParIncludes(x, y, e, f);
    ClosureMonotone(ParEdgesOf(x, y), SeqEdgesOf(x, y), e, f);
  }

  // ---- Compositions are valid again -----------------------------------------------------

  lemma EmptyValid()
    ensures Valid(EMPTY)
  {
    NoEdges();
  }

  lemma SingleValid(l: Label)
    ensures Valid(Single(l))
  {
    NoEdges();
    assert Single(l).nonMaximal == Sources([], 1) && Single(l).nonMinimal == Targets([], 1);
  }

  lemma NoEdges()
    ensures forall e: nat, f: nat :: !Closure([], e, f)
  {
    forall e: nat, f: nat ensures !Closure([], e, f) {
      if Closure([], e, f) {
        var c := FirstEdge([], e, f);
      }
    }
  }

  lemma ParStrict(x: PartialString, y: PartialString)
    requires StrictOrder(x) && StrictOrder(y)
    ensures StrictOrder(Par(x, y))
  {
    var z := Par(x, y);
    forall p | p in z.order ensures p.0 < z.length && p.1 < z.length {
      ParEdges(x, y, p);
    }
    forall e: nat ensures !Before(z, e, e) {
      ParClosure(x, y, e, e);
    }
  }

  lemma SeqStrict(x: PartialString, y: PartialString)
    requires StrictOrder(x) && StrictOrder(y)
    ensures StrictOrder(Seq(x, y))
  {
    var z := Seq(x, y);
    forall p | p in z.order ensures p.0 < z.length && p.1 < z.length {
      SeqEdges(x, y, p);
      ParEdges(x, y, p);
    }
    forall e: nat ensures !Before(z, e, e) {
      SeqClosure(x, y, e, e);
    }
  }

  lemma ParReduced(x: PartialString, y: PartialString)
    requires StrictOrder(x) && StrictOrder(y) && TransitiveReduction(x) && TransitiveReduction(y)
    ensures TransitiveReduction(Par(x, y))
  {
    forall p, c: nat | p in ParEdgesOf(x, y) ensures !(Before(Par(x, y), p.0, c) && Before(Par(x, y), c, p.1)) {
      ParEdges(x, y, p);
      ParClosure(x, y, p.0, c);
      ParClosure(x, y, c, p.1);
      if ParOrder(x, y, p.0, c) && ParOrder(x, y, c, p.1) {
        NotBetween(x, y, p, c);
      }
    }
  }

  /** Nothing lies between the ends of an inherited edge. */
  lemma NotBetween(x: PartialString, y: PartialString, p: (nat, nat), c: nat)
    requires StrictOrder(x) && StrictOrder(y) && TransitiveReduction(x) && TransitiveReduction(y)
    requires p in x.order || (p.0 >= x.length && p.1 >= x.length && (p.0 - x.length, p.1 - x.length) in y.order)
    ensures !(ParOrder(x, y, p.0, c) && ParOrder(x, y, c, p.1))
  {
    if p in x.order {
      assert p.0 < x.length;
      assert !(Before(x, p.0, c) && Before(x, c, p.1));
    } else if c >= x.length {
      var q := (p.0 - x.length, p.1 - x.length);
      assert !(Before(y, q.0, c - x.length) && Before(y, c - x.length, q.1));
    }
  }

  lemma SeqReduced(x: PartialString, y: PartialString)
    requires StrictOrder(x) && StrictOrder(y) && TransitiveReduction(x) && TransitiveReduction(y)
    ensures TransitiveReduction(Seq(x, y))
  {
    forall p, c: nat | p in Seq(x, y).order ensures !(Before(Seq(x, y), p.0, c) && Before(Seq(x, y), c, p.1)) {
      SeqClosure(x, y, p.0, c);
      SeqClosure(x, y, c, p.1);
      NothingBetween(x, y, p, c);
    }
  }

  /** No event comes between the ends of an edge of a sequential composition. */
  lemma NothingBetween(x: PartialString, y: PartialString, p: (nat, nat), c: nat)
    requires StrictOrder(x) && StrictOrder(y) && TransitiveReduction(x) && TransitiveReduction(y)
    requires p in SeqEdgesOf(x, y)
    ensures !(SeqOrder(x, y, p.0, c) && SeqOrder(x, y, c, p.1))
  {
    SeqEdges(x, y, p);
    ParEdges(x, y, p);
    if p in ParEdgesOf(x, y) {
      NotBetween(x, y, p, c);
      if p in x.order {
        assert p.1 < x.length;
      }
    } else {
      FlagsExact(x, p.0);
      FlagsExact(y, p.1 - x.length);
    }
  }

  lemma ParListed(x: PartialString, y: PartialString, e: nat, f: nat)
    requires ComparableOrListed(x) && ComparableOrListed(y)
    ensures Listed(Par(x, y), e, f) <==>
      || Listed(Seq(x, y), e, f)
      || (InFirst(x, e) && InSecond(x, y, f)) || (InFirst(x, f) && InSecond(x, y, e))
  {
    CrossListed(x, y, (e, f));
    CrossListed(x, y, (f, e));
  }

  lemma CrossListed(x: PartialString, y: PartialString, p: (nat, nat))
    ensures p in Par(x, y).incomparables <==> p in Seq(x, y).incomparables || (InFirst(x, p.0) && InSecond(x, y, p.1))
  {
    PairsMembers(Interval(0, x.length), Interval(x.length, x.length + y.length), p);
    IntervalMembers(0, x.length, p.0);
    IntervalMembers(x.length, x.length + y.length, p.1);
  }

  lemma SeqListed(x: PartialString, y: PartialString, e: nat, f: nat)
    requires ComparableOrListed(x) && ComparableOrListed(y)
    ensures Listed(Seq(x, y), e, f) <==>
      Listed(x, e, f) || (e >= x.length && f >= x.length && Listed(y, e - x.length, f - x.length))
  {
    ShiftMembers(y.incomparables, x.length, (e, f));
    ShiftMembers(y.incomparables, x.length, (f, e));
  }

  lemma ParComparable(x: PartialString, y: PartialString)
    requires StrictOrder(x) && StrictOrder(y) && ComparableOrListed(x) && ComparableOrListed(y)
    ensures ComparableOrListed(Par(x, y))
  {
    var z := Par(x, y);
    forall p | p in z.incomparables ensures p.0 < z.length && p.1 < z.length && p.0 != p.1 {
      CrossListed(x, y, p);
      ShiftMembers(y.incomparables, x.length, p);
    }
    forall e: nat, f: nat | e < z.length && f < z.length && e != f
      ensures Listed(z, e, f) <==> !Before(z, e, f) && !Before(z, f, e)
    {
      ParListed(x, y, e, f);
      SeqListed(x, y, e, f);
      ParClosure(x, y, e, f);
      ParClosure(x, y, f, e);
      SidesListed(x, y, e, f);
    }
  }

  lemma SeqComparable(x: PartialString, y: PartialString)
    requires StrictOrder(x) && StrictOrder(y) && ComparableOrListed(x) && ComparableOrListed(y)
    ensures ComparableOrListed(Seq(x, y))
  {
    var z := Seq(x, y);
    forall p | p in z.incomparables ensures p.0 < z.length && p.1 < z.length && p.0 != p.1 {
      ShiftMembers(y.incomparables, x.length, p);
    }
    forall e: nat, f: nat | e < z.length && f < z.length && e != f
      ensures Listed(z, e, f) <==> !Before(z, e, f) && !Before(z, f, e)
    {
      SeqListed(x, y, e, f);
      SeqClosure(x, y, e, f);
      SeqClosure(x, y, f, e);
      SidesListed(x, y, e, f);
    }
  }

  /** Within one side, listed and ordered exclude each other as before. */
  lemma SidesListed(x: PartialString, y: PartialString, e: nat, f: nat)
    requires ComparableOrListed(x) && ComparableOrListed(y) && e != f
    ensures InFirst(x, e) && InFirst(x, f) ==> (Listed(x, e, f) <==> !ParOrder(x, y, e, f) && !ParOrder(x, y, f, e))
    ensures InSecond(x, y, e) && InSecond(x, y, f) ==>
      (Listed(y, e - x.length, f - x.length) <==> !ParOrder(x, y, e, f) && !ParOrder(x, y, f, e))
    ensures Listed(x, e, f) ==> InFirst(x, e) && InFirst(x, f)
  {
  }

  lemma CoproductBounds(x: PartialString, y: PartialString)
    requires |x.labels| == x.length && |y.labels| == y.length && LabelBounds(x) && LabelBounds(y)
    ensures LabelBounds(Coproduct(x, y))
  {
    forall l ensures l in x.labels + y.labels <==> l in x.labels || l in y.labels {}
  }

  /** Validity of both compositions. */
  lemma CompositionsValid(x: PartialString, y: PartialString)
    requires Valid(x) && Valid(y)
    ensures Valid(Par(x, y)) && Valid(Seq(x, y))
  {
    ParStrict(x, y);
    SeqStrict(x, y);
    ParReduced(x, y);
    SeqReduced(x, y);
    ParComparable(x, y);
    SeqComparable(x, y);
    CoproductBounds(x, y);
    assert LabelBounds(Par(x, y)) && LabelBounds(Seq(x, y));
  }

  // ---- The loops that build them ----------------------------------------------------------

  method BuildCoproduct(x: PartialString, y: PartialString) returns (z: PartialString)
    requires |x.labels| == x.length && |y.labels| == y.length
    ensures z == Coproduct(x, y)
  {
    var minLabel := Min(x.minLabel, y.minLabel);
    if x.length == 0 { minLabel := y.minLabel; }
    if y.length == 0 { minLabel := x.minLabel; }
    var labels := x.labels;
    for i := 0 to |y.labels|
      invariant labels == x.labels + y.labels[..i]
    {
      labels := labels + [y.labels[i]];
    }
    assert y.labels[..|y.labels|] == y.labels;
    var order := x.order;
    for i := 0 to |y.order|
      invariant order == x.order + Shift(y.order, x.length)[..i]
    {
      order := order + [(x.length + y.order[i].0, x.length + y.order[i].1)];
    }
    var incomparables := x.incomparables;
    for i := 0 to |y.incomparables|
      invariant incomparables == x.incomparables + Shift(y.incomparables, x.length)[..i]
    {
      incomparables := incomparables + [(x.length + y.incomparables[i].0, x.length + y.incomparables[i].1)];
    }
    var n := x.length + y.length;
    z := PartialString(labels, order, n, incomparables, seq(n, _ => false), seq(n, _ => false),
                       minLabel, Max(x.maxLabel, y.maxLabel));
  }

  /** Unflag the ends of every edge; flags are never cleared. */
  method RecomputeExtremals(z: PartialString) returns (r: PartialString)
    requires |z.nonMinimal| == z.length && |z.nonMaximal| == z.length && EdgesInRange(z.order, z.length)
    ensures r == z.(nonMinimal := r.nonMinimal, nonMaximal := r.nonMaximal)
    ensures |r.nonMinimal| == z.length && |r.nonMaximal| == z.length
    ensures forall e :: 0 <= e < z.length ==> r.nonMaximal[e] == (z.nonMaximal[e] || Sources(z.order, z.length)[e])
    ensures forall e :: 0 <= e < z.length ==> r.nonMinimal[e] == (z.nonMinimal[e] || Targets(z.order, z.length)[e])
  {
    var nonMinimal, nonMaximal := z.nonMinimal, z.nonMaximal;
    for i := 0 to |z.order|
      invariant |nonMinimal| == z.length && |nonMaximal| == z.length
      invariant forall e :: 0 <= e < z.length ==>
        nonMaximal[e] == (z.nonMaximal[e] || exists k :: 0 <= k < i && z.order[k].0 == e)
      invariant forall e :: 0 <= e < z.length ==>
        nonMinimal[e] == (z.nonMinimal[e] || exists k :: 0 <= k < i && z.order[k].1 == e)
    {
      var p := z.order[i];
      assert p in z.order;
      nonMaximal := nonMaximal[p.0 := true];
      nonMinimal := nonMinimal[p.1 := true];
    }
    r := z.(nonMinimal := nonMinimal, nonMaximal := nonMaximal);
  }

  /** Events that do not have an event above them, recomputed on each call. */
  method Maximals(x: PartialString) returns (events: seq<nat>)
    requires |x.nonMaximal| == x.length
    ensures events == Unset(x.nonMaximal)
  {
    events := [];
    for e := 0 to x.length
      invariant events == Unset(x.nonMaximal[..e])
    {
      assert x.nonMaximal[..e + 1][..e] == x.nonMaximal[..e];
      if !x.nonMaximal[e] {
        events := events + [e];
      }
    }
    assert x.nonMaximal[..x.length] == x.nonMaximal;
  }

  method Minimals(x: PartialString) returns (events: seq<nat>)
    requires |x.nonMinimal| == x.length
    ensures events == Unset(x.nonMinimal)
  {
    events := [];
    for e := 0 to x.length
      invariant events == Unset(x.nonMinimal[..e])
    {
      assert x.nonMinimal[..e + 1][..e] == x.nonMinimal[..e];
      if !x.nonMinimal[e] {
        events := events + [e];
      }
    }
    assert x.nonMinimal[..x.length] == x.nonMinimal;
  }

  /** The new incomparable pairs, for one event of the first operand. */
  method AddRow(edges: Edges, e: nat, m: nat, n: nat) returns (r: Edges)
    requires m <= n
    ensures r == edges + Row(e, Interval(m, n))
  {
    r := edges;
    ghost var ys := Interval(m, n);
    for f := m to n
      invariant r == edges + Row(e, ys[..f - m])
    {
      assert ys[..f + 1 - m][..f - m] == ys[..f - m];
      r := r + [(e, f)];
    }
    assert ys[..n - m] == ys;
  }

  method AddCross(edges: Edges, m: nat, n: nat) returns (r: Edges)
    requires m <= n
    ensures r == edges + Pairs(Interval(0, m), Interval(m, n))
  {
    r := edges;
    ghost var xs, ys := Interval(0, m), Interval(m, n);
    for e := 0 to m
      invariant r == edges + Pairs(xs[..e], ys)
    {
      r := AddRow(r, e, m, n);
      assert xs[..e + 1][..e] == xs[..e];
    }
    assert xs[..m] == xs;
  }

  /** The new edges, for one maximal event of the first operand. */
  method AddEdges(edges: Edges, maximal: nat, minimals: seq<nat>, offset: nat) returns (r: Edges)
    ensures r == edges + Row(maximal, Moved(minimals, offset))
  {
    r := edges;
    ghost var ys := Moved(minimals, offset);
    for j := 0 to |minimals|
      invariant r == edges + Row(maximal, ys[..j])
    {
      assert ys[..j + 1][..j] == ys[..j];
      r := r + [(maximal, offset + minimals[j])];
    }
    assert ys[..|minimals|] == ys;
  }

  method AddCrossEdges(edges: Edges, maximals: seq<nat>, minimals: seq<nat>, offset: nat) returns (r: Edges)
    ensures r == edges + Pairs(maximals, Moved(minimals, offset))
  {
    r := edges;
    ghost var ys := Moved(minimals, offset);
    for i := 0 to |maximals|
      invariant r == edges + Pairs(maximals[..i], ys)
    {
      r := AddEdges(r, maximals[i], minimals, offset);
      assert maximals[..i + 1][..i] == maximals[..i];
    }
    assert maximals[..|maximals|] == maximals;
  }

  /** `x | y` */
  method Concurrent(x: PartialString, y: PartialString) returns (z: PartialString)
    requires Valid(x) && Valid(y)
    ensures z == Par(x, y) && Valid(z)
  {
    CompositionsValid(x, y);
    CoproductInRange(x, y);
    z := BuildCoproduct(x, y);
    z := RecomputeExtremals(z);
    assert z == WithExtremals(Coproduct(x, y));
    var incomparables := AddCross(z.incomparables, x.length, z.length);
    z := z.(incomparables := incomparables);
  }

  /** `x , y` */
  method Sequential(x: PartialString, y: PartialString) returns (z: PartialString)
    requires Valid(x) && Valid(y)
    ensures z == Seq(x, y) && Valid(z)
  {
    CompositionsValid(x, y);
    z := BuildCoproduct(x, y);
    var maximals := Maximals(x);
    var minimals := Minimals(y);
    var order := AddCrossEdges(z.order, maximals, minimals, x.length);
    z := z.(order := order);
    z := RecomputeExtremals(z);
  }

  lemma CoproductInRange(x: PartialString, y: PartialString)
    requires Valid(x) && Valid(y)
    ensures EdgesInRange(Coproduct(x, y).order, x.length + y.length)
  {
    forall p | p in Coproduct(x, y).order ensures p.0 < x.length + y.length && p.1 < x.length + y.length {
      ShiftMembers(y.order, x.length, p);
    }
  }
}
