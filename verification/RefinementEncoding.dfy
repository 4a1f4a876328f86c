/** The symbolic refinement check between two partial strings: loops that encode the order
    of `x` and a monotone, label-preserving bijection from `y` to `x`. */
module RefinementEncoding {
  import opened Orders
  import opened PartialStrings
  import opened RefinementLaws

  // ---- Constraints over an unknown order, event map and labelling ----------------------

  datatype EventTerm = Known(e: nat) | Image(e: nat)

  datatype Constraint =
    | Precedes(before: EventTerm, after: EventTerm)
    | LabelIs(t: EventTerm, l: Label)
    | NonNegative(t: EventTerm)
    | AtMost(t: EventTerm, bound: int)
    | Distinct(ts: seq<EventTerm>)
    | Not(c: Constraint)
    | And(c: Constraint, d: Constraint)
    | Implies(c: Constraint, d: Constraint)

  /** An interpretation of the three uninterpreted functions. */
  datatype Model = Model(order: (int, int) -> bool, image: int -> int, labelling: int -> int)

  function Value(t: EventTerm, m: Model): int
  {
    match t
    case Known(e) => e
    case Image(e) => m.image(e)
  }

  predicate Holds(c: Constraint, m: Model)
  {
    match c
    case Precedes(a, b) => m.order(Value(a, m), Value(b, m))
    case LabelIs(t, l) => m.labelling(Value(t, m)) == l
    case NonNegative(t) => 0 <= Value(t, m)
    case AtMost(t, n) => Value(t, m) <= n
    case Distinct(ts) => forall i, j :: 0 <= i < j < |ts| ==> Value(ts[i], m) != Value(ts[j], m)
    case Not(d) => !Holds(d, m)
    case And(d, e) => Holds(d, m) && Holds(e, m)
    case Implies(d, e) => Holds(d, m) ==> Holds(e, m)
  }

  ghost predicate AllHold(cs: seq<Constraint>, m: Model)
  {
    forall i :: 0 <= i < |cs| ==> Holds(cs[i], m)
  }

  ghost predicate Satisfiable(cs: seq<Constraint>)
  {
    exists m :: AllHold(cs, m)
  }

  /** `a` happens before `b` in `x`. */
  function HappensBefore(a: nat, b: nat): (c: Constraint)
    ensures forall m :: Holds(c, m) <==> m.order(a, b)
  {
    Precedes(Known(a), Known(b))
  }

  function Negated(d: Constraint): (c: Constraint)
    ensures forall m :: Holds(c, m) <==> !Holds(d, m)
  {
    Not(d)
  }

  function IfBoth(a: Constraint, b: Constraint, d: Constraint): (c: Constraint)
    ensures forall m :: Holds(c, m) <==> (Holds(a, m) && Holds(b, m) ==> Holds(d, m))
  {
    Implies(And(a, b), d)
  }

  function IfThen(a: Constraint, d: Constraint): (c: Constraint)
    ensures forall m :: Holds(c, m) <==> (Holds(a, m) ==> Holds(d, m))
  {
    Implies(a, d)
  }

  lemma AppendHolds(cs: seq<Constraint>, c: Constraint)
    ensures forall m :: AllHold(cs + [c], m) <==> AllHold(cs, m) && Holds(c, m)
  {
    forall m ensures AllHold(cs + [c], m) <==> AllHold(cs, m) && Holds(c, m) {
      if AllHold(cs + [c], m) {
        forall i | 0 <= i < |cs| ensures Holds(cs[i], m) { assert (cs + [c])[i] == cs[i]; }
        assert (cs + [c])[|cs|] == c;
      }
    }
  }

  // ---- What the encodings mean ----------------------------------------------------------

  ghost predicate EdgesOrdered(edges: Edges, m: Model)
  {
    forall p :: p in edges ==> m.order(p.0, p.1)
  }

  ghost predicate IrreflexiveBelow(n: nat, m: Model)
  {
    forall e: nat :: e < n ==> !m.order(e, e)
  }

  ghost predicate AsymmetricFrom(a: nat, b0: nat, n: nat, m: Model)
  {
    forall b: nat :: a < b < n && b < b0 ==> !(m.order(a, b) && m.order(b, a))
  }

  ghost predicate AsymmetricBelow(a0: nat, n: nat, m: Model)
  {
    forall a: nat :: a < a0 ==> AsymmetricFrom(a, n, n, m)
  }

  ghost predicate Composes(a: nat, b: nat, c: nat, m: Model)
  {
    a != b && a != c && b != c && m.order(a, b) && m.order(b, c) ==> m.order(a, c)
  }

  ghost predicate ComposesTo(a: nat, b: nat, c0: nat, m: Model)
  {
    forall c: nat :: c < c0 ==> Composes(a, b, c, m)
  }

  ghost predicate ComposesThrough(a: nat, b0: nat, n: nat, m: Model)
  {
    forall b: nat :: b < b0 ==> ComposesTo(a, b, n, m)
  }

  ghost predicate TransitiveBelow(a0: nat, n: nat, m: Model)
  {
    forall a: nat :: a < a0 ==> ComposesThrough(a, n, n, m)
  }

  /** `m.order` extends the edges to a strict order on the events of `x`. */
  ghost predicate OrdersEvents(x: PartialString, m: Model)
  {
    && EdgesOrdered(x.order, m) && IrreflexiveBelow(x.length, m)
    && AsymmetricBelow(x.length, x.length, m) && TransitiveBelow(x.length, x.length, m)
  }

  ghost predicate Unordered(pairs: Edges, m: Model)
  {
    forall p :: p in pairs ==> !m.order(p.0, p.1) && !m.order(p.1, p.0)
  }

  ghost predicate LabelsAre(labels: seq<Label>, m: Model)
  {
    forall e :: 0 <= e < |labels| ==> m.labelling(e) == labels[e]
  }

  ghost predicate Monotone(edges: Edges, m: Model)
  {
    forall p :: p in edges ==> m.order(m.image(p.0), m.image(p.1))
  }

  ghost predicate ImagesBelow(len: nat, m: Model)
  {
    forall e: nat :: e < len ==> 0 <= m.image(e) < len
  }

  ghost predicate InjectiveInto(len: nat, m: Model)
  {
    && ImagesBelow(len, m)
    && (forall e: nat, f: nat :: e < f < len ==> m.image(e) != m.image(f))
  }

  ghost predicate KeepsLabels(labels: seq<Label>, m: Model)
  {
    forall e :: 0 <= e < |labels| ==> m.labelling(m.image(e)) == labels[e]
  }

  ghost predicate Encodes(x: PartialString, y: PartialString, m: Model)
  {
    && OrdersEvents(x, m) && Unordered(x.incomparables, m) && LabelsAre(x.labels, m)
    && Monotone(y.order, m) && InjectiveInto(y.length, m) && KeepsLabels(y.labels, m)
  }

  // ---- The constraints of the query ------------------------------------------------------

  lemma AppendAll(cs: seq<Constraint>, ds: seq<Constraint>)
    ensures forall m :: AllHold(cs + ds, m) <==> AllHold(cs, m) && AllHold(ds, m)
  {
    forall m ensures AllHold(cs + ds, m) <==> AllHold(cs, m) && AllHold(ds, m) {
      if AllHold(cs + ds, m) {
        forall i | 0 <= i < |cs| ensures Holds(cs[i], m) { assert (cs + ds)[i] == cs[i]; }
        forall i | 0 <= i < |ds| ensures Holds(ds[i], m) { assert (cs + ds)[|cs| + i] == ds[i]; }
      }
    }
  }

  function One(c: Constraint): (cs: seq<Constraint>)
    ensures forall m :: AllHold(cs, m) <==> Holds(c, m)
  {
    AppendHolds([], c);
    assert [] + [c] == [c];
    [c]
  }

  /** The constraints of a loop from `lo` to `hi`, turn by turn. */
  function Gather(lo: nat, hi: nat, turn: nat -> seq<Constraint>): (cs: seq<Constraint>)
    ensures forall m :: AllHold(cs, m) <==> forall i: nat :: lo <= i < hi ==> AllHold(turn(i), m)
  {
    if hi <= lo then []
    else
      var front := Gather(lo, hi - 1, turn);
      AppendAll(front, turn(hi - 1));
      front + turn(hi - 1)
  }

  function EdgeTurn(edges: Edges): nat -> seq<Constraint>
  {
    (i: nat) => if i < |edges| then One(HappensBefore(edges[i].0, edges[i].1)) else []
  }

  function EdgeConstraints(edges: Edges): (cs: seq<Constraint>)
    ensures forall m :: AllHold(cs, m) <==> EdgesOrdered(edges, m)
  {
    assert forall i: nat, m :: i < |edges| ==> (AllHold(EdgeTurn(edges)(i), m) <==> m.order(edges[i].0, edges[i].1));
    Gather(0, |edges|, EdgeTurn(edges))
  }

  function IrreflexivityTurn(): nat -> seq<Constraint>
  {
    (e: nat) => One(Negated(HappensBefore(e, e)))
  }

  lemma IrreflexivityMeans(n: nat)
    ensures forall m :: IrreflexiveBelow(n, m) <==> forall e: nat :: e < n ==> AllHold(IrreflexivityTurn()(e), m)
  {
    forall m ensures IrreflexiveBelow(n, m) <==> forall e: nat :: e < n ==> AllHold(IrreflexivityTurn()(e), m) {
      forall e: nat ensures AllHold(IrreflexivityTurn()(e), m) <==> !m.order(e, e) {}
    }
  }

  function IrreflexivityConstraints(n: nat): (cs: seq<Constraint>)
    ensures forall m :: AllHold(cs, m) <==> IrreflexiveBelow(n, m)
  {
    IrreflexivityMeans(n);
    Gather(0, n, IrreflexivityTurn())
  }

  function AsymmetryPair(a: nat): nat -> seq<Constraint>
  {
    (b: nat) => One(IfThen(HappensBefore(a, b), Negated(HappensBefore(b, a))))
  }

  lemma AsymmetriesMean(a: nat, n: nat)
    ensures forall m :: AsymmetricFrom(a, n, n, m) <==>
      forall b: nat :: a + 1 <= b < n ==> AllHold(AsymmetryPair(a)(b), m)
  {
    forall m ensures AsymmetricFrom(a, n, n, m) <==>
      forall b: nat :: a + 1 <= b < n ==> AllHold(AsymmetryPair(a)(b), m)
    {
      forall b: nat ensures AllHold(AsymmetryPair(a)(b), m) <==> !(m.order(a, b) && m.order(b, a)) {}
    }
  }

  function AsymmetriesFrom(a: nat, n: nat): (cs: seq<Constraint>)
    ensures forall m :: AllHold(cs, m) <==> AsymmetricFrom(a, n, n, m)
  {
    AsymmetriesMean(a, n);
    Gather(a + 1, n, AsymmetryPair(a))
  }

  function AsymmetryTurn(n: nat): nat -> seq<Constraint>
  {
    (a: nat) => AsymmetriesFrom(a, n)
  }

  function AsymmetryConstraints(n: nat): (cs: seq<Constraint>)
    ensures forall m :: AllHold(cs, m) <==> AsymmetricBelow(n, n, m)
  {
    assert forall a: nat, m :: AllHold(AsymmetryTurn(n)(a), m) <==> AsymmetricFrom(a, n, n, m);
    Gather(0, n, AsymmetryTurn(n))
  }

  function TransitivityTriple(a: nat, b: nat): nat -> seq<Constraint>
  {
    (c: nat) =>
      if a == b || a == c || b == c then []
      else One(IfBoth(HappensBefore(a, b), HappensBefore(b, c), HappensBefore(a, c)))
  }

  function TransitivitiesTo(a: nat, b: nat, n: nat): (cs: seq<Constraint>)
    ensures forall m :: AllHold(cs, m) <==> ComposesTo(a, b, n, m)
  {
    assert forall c: nat, m :: AllHold(TransitivityTriple(a, b)(c), m) <==> Composes(a, b, c, m);
    Gather(0, n, TransitivityTriple(a, b))
  }

  function TransitivityTurnTo(a: nat, n: nat): nat -> seq<Constraint>
  {
    (b: nat) => TransitivitiesTo(a, b, n)
  }

  function TransitivitiesFrom(a: nat, n: nat): (cs: seq<Constraint>)
    ensures forall m :: AllHold(cs, m) <==> ComposesThrough(a, n, n, m)
  {
    assert forall b: nat, m :: AllHold(TransitivityTurnTo(a, n)(b), m) <==> ComposesTo(a, b, n, m);
    Gather(0, n, TransitivityTurnTo(a, n))
  }

  function TransitivityTurn(n: nat): nat -> seq<Constraint>
  {
    (a: nat) => TransitivitiesFrom(a, n)
  }

  function TransitivityConstraints(n: nat): (cs: seq<Constraint>)
    ensures forall m :: AllHold(cs, m) <==> TransitiveBelow(n, n, m)
  {
    assert forall a: nat, m :: AllHold(TransitivityTurn(n)(a), m) <==> ComposesThrough(a, n, n, m);
    Gather(0, n, TransitivityTurn(n))
  }

  function OrderConstraints(x: PartialString): (cs: seq<Constraint>)
    ensures forall m :: AllHold(cs, m) <==> OrdersEvents(x, m)
  {
    Both(Both(Both(EdgeConstraints(x.order), IrreflexivityConstraints(x.length)), AsymmetryConstraints(x.length)),
         TransitivityConstraints(x.length))
  }

  function Both(cs: seq<Constraint>, ds: seq<Constraint>): (es: seq<Constraint>)
    ensures forall m :: AllHold(es, m) <==> AllHold(cs, m) && AllHold(ds, m)
  {
    AppendAll(cs, ds);
    cs + ds
  }

  function IncomparableTurn(pairs: Edges): nat -> seq<Constraint>
  {
    (i: nat) =>
      if i < |pairs|
      then Both(One(Negated(HappensBefore(pairs[i].0, pairs[i].1))),
                One(Negated(HappensBefore(pairs[i].1, pairs[i].0))))
      else []
  }

  function IncomparableConstraints(pairs: Edges): (cs: seq<Constraint>)
    ensures forall m :: AllHold(cs, m) <==> Unordered(pairs, m)
  {
    assert forall i: nat, m :: i < |pairs| ==>
      (AllHold(IncomparableTurn(pairs)(i), m) <==>
       !m.order(pairs[i].0, pairs[i].1) && !m.order(pairs[i].1, pairs[i].0));
    Gather(0, |pairs|, IncomparableTurn(pairs))
  }

  function LabelTurn(labels: seq<Label>): nat -> seq<Constraint>
  {
    (e: nat) => if e < |labels| then One(LabelIs(Known(e), labels[e])) else []
  }

  function LabelConstraints(labels: seq<Label>): (cs: seq<Constraint>)
    ensures forall m :: AllHold(cs, m) <==> LabelsAre(labels, m)
  {
    assert forall e: nat, m :: e < |labels| ==> (AllHold(LabelTurn(labels)(e), m) <==> m.labelling(e) == labels[e]);
    Gather(0, |labels|, LabelTurn(labels))
  }

  function MonotoneTurn(edges: Edges): nat -> seq<Constraint>
  {
    (i: nat) => if i < |edges| then One(Precedes(Image(edges[i].0), Image(edges[i].1))) else []
  }

  function MonotoneConstraints(edges: Edges): (cs: seq<Constraint>)
    ensures forall m :: AllHold(cs, m) <==> Monotone(edges, m)
  {
    assert forall i: nat, m :: i < |edges| ==>
      (AllHold(MonotoneTurn(edges)(i), m) <==> m.order(m.image(edges[i].0), m.image(edges[i].1)));
    Gather(0, |edges|, MonotoneTurn(edges))
  }

  function ImageTurn(len: nat): nat -> seq<Constraint>
  {
    (e: nat) => Both(One(NonNegative(Image(e))), One(AtMost(Image(e), len - 1)))
  }

  lemma ImagesMean(len: nat)
    ensures forall m :: ImagesBelow(len, m) <==> forall e: nat :: 0 <= e < len ==> AllHold(ImageTurn(len)(e), m)
  {
    forall m ensures ImagesBelow(len, m) <==> forall e: nat :: 0 <= e < len ==> AllHold(ImageTurn(len)(e), m) {
      forall e: nat ensures AllHold(ImageTurn(len)(e), m) <==> 0 <= m.image(e) < len {}
    }
  }

  function Images(n: nat): (ts: seq<EventTerm>)
    ensures |ts| == n && forall i :: 0 <= i < n ==> ts[i] == Image(i)
  {
    seq(n, (i: int) requires 0 <= i < n => Image(i))
  }

  function BijectionConstraints(len: nat): (cs: seq<Constraint>)
    ensures forall m :: AllHold(cs, m) <==> InjectiveInto(len, m)
  {
    ImagesMean(len);
    DistinctMeansInjective(Images(len));
    Both(Gather(0, len, ImageTurn(len)), One(Distinct(Images(len))))
  }

  lemma DistinctMeansInjective(codomain: seq<EventTerm>)
    requires forall i :: 0 <= i < |codomain| ==> codomain[i] == Image(i)
    ensures forall m :: Holds(Distinct(codomain), m) <==>
      forall e: nat, f: nat :: e < f < |codomain| ==> m.image(e) != m.image(f)
  {
    forall m ensures Holds(Distinct(codomain), m) <==>
      forall e: nat, f: nat :: e < f < |codomain| ==> m.image(e) != m.image(f)
    {
      assert forall i :: 0 <= i < |codomain| ==> Value(codomain[i], m) == m.image(i);
      if Holds(Distinct(codomain), m) {
        forall e: nat, f: nat | e < f < |codomain| ensures m.image(e) != m.image(f) {
          assert Value(codomain[e], m) != Value(codomain[f], m);
        }
      }
    }
  }

  function KeptLabelTurn(labels: seq<Label>): nat -> seq<Constraint>
  {
    (e: nat) => if e < |labels| then One(LabelIs(Image(e), labels[e])) else []
  }

  function KeptLabelConstraints(labels: seq<Label>): (cs: seq<Constraint>)
    ensures forall m :: AllHold(cs, m) <==> KeepsLabels(labels, m)
  {
    assert forall e: nat, m :: e < |labels| ==>
      (AllHold(KeptLabelTurn(labels)(e), m) <==> m.labelling(m.image(e)) == labels[e]);
    Gather(0, |labels|, KeptLabelTurn(labels))
  }

  function MorphismConstraints(y: PartialString): (cs: seq<Constraint>)
    requires |y.labels| == y.length
    ensures forall m :: AllHold(cs, m) <==>
      Monotone(y.order, m) && InjectiveInto(y.length, m) && KeepsLabels(y.labels, m)
  {
    if y.length > 0
    then Both(Both(MonotoneConstraints(y.order), BijectionConstraints(y.length)), KeptLabelConstraints(y.labels))
    else MonotoneConstraints(y.order)
  }

  /** What the solver is asked about `x` and `y`. */
  function Query(x: PartialString, y: PartialString): (cs: seq<Constraint>)
    requires |y.labels| == y.length
    ensures forall m :: AllHold(cs, m) <==> Encodes(x, y, m)
  {
    Both(Both(Both(OrderConstraints(x), IncomparableConstraints(x.incomparables)), LabelConstraints(x.labels)),
         MorphismConstraints(y))
  }

  // ---- The encoders ----------------------------------------------------------------------

  /** One more turn of a loop. */
  lemma NextTurn(cs0: seq<Constraint>, lo: nat, i: nat, turn: nat -> seq<Constraint>)
    requires lo <= i
    ensures cs0 + Gather(lo, i + 1, turn) == (cs0 + Gather(lo, i, turn)) + turn(i)
  {
  }

  lemma InQueryOrder(cs0: seq<Constraint>, cs1: seq<Constraint>, cs2: seq<Constraint>, cs3: seq<Constraint>,
                     cs4: seq<Constraint>)
    ensures (((cs0 + cs1) + cs2) + cs3) + cs4 == cs0 + (((cs1 + cs2) + cs3) + cs4)
  {
  }

  lemma Added(cs0: seq<Constraint>, ds: seq<Constraint>)
    ensures forall m :: AllHold(cs0 + ds, m) <==> AllHold(cs0, m) && AllHold(ds, m)
  {
    AppendAll(cs0, ds);
  }

  method EncodeEdges(edges: Edges, cs0: seq<Constraint>) returns (cs: seq<Constraint>)
    ensures cs == cs0 + EdgeConstraints(edges)
  {
    cs := cs0;
    for i := 0 to |edges|
      invariant cs == cs0 + Gather(0, i, EdgeTurn(edges))
    {
      NextTurn(cs0, 0, i, EdgeTurn(edges));
      cs := cs + [HappensBefore(edges[i].0, edges[i].1)];
    }
  }

  method EncodeIrreflexivity(n: nat, cs0: seq<Constraint>) returns (cs: seq<Constraint>)
    ensures cs == cs0 + IrreflexivityConstraints(n)
  {
    cs := cs0;
    for e := 0 to n
      invariant cs == cs0 + Gather(0, e, IrreflexivityTurn())
    {
      NextTurn(cs0, 0, e, IrreflexivityTurn());
      cs := cs + [Negated(HappensBefore(e, e))];
    }
  }

  method EncodeAsymmetryFrom(a: nat, n: nat, cs0: seq<Constraint>) returns (cs: seq<Constraint>)
    requires a < n
    ensures cs == cs0 + AsymmetriesFrom(a, n)
  {
    cs := cs0;
    for b := a + 1 to n
      invariant cs == cs0 + Gather(a + 1, b, AsymmetryPair(a))
    {
      NextTurn(cs0, a + 1, b, AsymmetryPair(a));
      cs := cs + [IfThen(HappensBefore(a, b), Negated(HappensBefore(b, a)))];
    }
  }

  method EncodeAsymmetry(n: nat, cs0: seq<Constraint>) returns (cs: seq<Constraint>)
    ensures cs == cs0 + AsymmetryConstraints(n)
  {
    cs := cs0;
    for a := 0 to n
      invariant cs == cs0 + Gather(0, a, AsymmetryTurn(n))
    {
      NextTurn(cs0, 0, a, AsymmetryTurn(n));
      cs := EncodeAsymmetryFrom(a, n, cs);
    }
  }

  method EncodeTransitivityTo(a: nat, b: nat, n: nat, cs0: seq<Constraint>) returns (cs: seq<Constraint>)
    ensures cs == cs0 + TransitivitiesTo(a, b, n)
    ensures forall m :: AllHold(cs, m) <==> AllHold(cs0, m) && ComposesTo(a, b, n, m)
  {
    cs := cs0;
    for c := 0 to n
      invariant cs == cs0 + Gather(0, c, TransitivityTriple(a, b))
    {
      NextTurn(cs0, 0, c, TransitivityTriple(a, b));
      if a == b || a == c || b == c {
        continue;
      }
      cs := cs + [IfBoth(HappensBefore(a, b), HappensBefore(b, c), HappensBefore(a, c))];
    }
    Added(cs0, TransitivitiesTo(a, b, n));
  }

  method EncodeTransitivityFrom(a: nat, n: nat, cs0: seq<Constraint>) returns (cs: seq<Constraint>)
    ensures cs == cs0 + TransitivitiesFrom(a, n)
  {
    cs := cs0;
    for b := 0 to n
      invariant cs == cs0 + Gather(0, b, TransitivityTurnTo(a, n))
    {
      NextTurn(cs0, 0, b, TransitivityTurnTo(a, n));
      cs := EncodeTransitivityTo(a, b, n, cs);
    }
  }

  method EncodeTransitivity(n: nat, cs0: seq<Constraint>) returns (cs: seq<Constraint>)
    ensures cs == cs0 + TransitivityConstraints(n)
  {
    cs := cs0;
    for a := 0 to n
      invariant cs == cs0 + Gather(0, a, TransitivityTurn(n))
    {
      NextTurn(cs0, 0, a, TransitivityTurn(n));
      cs := EncodeTransitivityFrom(a, n, cs);
    }
  }

  method EncodeStrictPartialOrder(x: PartialString, cs0: seq<Constraint>) returns (cs: seq<Constraint>)
    ensures cs == cs0 + OrderConstraints(x)
    ensures forall m :: AllHold(cs, m) <==> AllHold(cs0, m) && OrdersEvents(x, m)
  {
    InQueryOrder(cs0, EdgeConstraints(x.order), IrreflexivityConstraints(x.length), AsymmetryConstraints(x.length),
                 TransitivityConstraints(x.length));
    cs := EncodeEdges(x.order, cs0);
    cs := EncodeIrreflexivity(x.length, cs);
    cs := EncodeAsymmetry(x.length, cs);
    cs := EncodeTransitivity(x.length, cs);
    Added(cs0, OrderConstraints(x));
  }

  method EncodeIncomparables(x: PartialString, cs0: seq<Constraint>) returns (cs: seq<Constraint>)
    ensures cs == cs0 + IncomparableConstraints(x.incomparables)
    ensures forall m :: AllHold(cs, m) <==> AllHold(cs0, m) && Unordered(x.incomparables, m)
  {
    cs := cs0;
    var pairs := x.incomparables;
    for i := 0 to |pairs|
      invariant cs == cs0 + Gather(0, i, IncomparableTurn(pairs))
    {
      NextTurn(cs0, 0, i, IncomparableTurn(pairs));
      cs := cs + [Negated(HappensBefore(pairs[i].0, pairs[i].1))];
      cs := cs + [Negated(HappensBefore(pairs[i].1, pairs[i].0))];
    }
    Added(cs0, IncomparableConstraints(pairs));
  }

  method EncodeLabels(x: PartialString, cs0: seq<Constraint>) returns (cs: seq<Constraint>)
    ensures cs == cs0 + LabelConstraints(x.labels)
    ensures forall m :: AllHold(cs, m) <==> AllHold(cs0, m) && LabelsAre(x.labels, m)
  {
    cs := cs0;
    for e := 0 to |x.labels|
      invariant cs == cs0 + Gather(0, e, LabelTurn(x.labels))
    {
      NextTurn(cs0, 0, e, LabelTurn(x.labels));
      cs := cs + [LabelIs(Known(e), x.labels[e])];
    }
    Added(cs0, LabelConstraints(x.labels));
  }

  /** Monotonicity on the stored edges of `y` only. */
  method EncodeMonotone(y: PartialString, cs0: seq<Constraint>) returns (cs: seq<Constraint>)
    ensures cs == cs0 + MonotoneConstraints(y.order)
    ensures forall m :: AllHold(cs, m) <==> AllHold(cs0, m) && Monotone(y.order, m)
  {
    cs := cs0;
    for i := 0 to |y.order|
      invariant cs == cs0 + Gather(0, i, MonotoneTurn(y.order))
    {
      NextTurn(cs0, 0, i, MonotoneTurn(y.order));
      cs := cs + [Precedes(Image(y.order[i].0), Image(y.order[i].1))];
    }
    Added(cs0, MonotoneConstraints(y.order));
  }

  method EncodeBijection(len: nat, cs0: seq<Constraint>) returns (cs: seq<Constraint>)
    requires len > 0
    ensures cs == cs0 + BijectionConstraints(len)
    ensures forall m :: AllHold(cs, m) <==> AllHold(cs0, m) && InjectiveInto(len, m)
  {
    cs := cs0;
    var codomain: seq<EventTerm> := [];
    for e := 0 to len
      invariant codomain == Images(e)
      invariant cs == cs0 + Gather(0, e, ImageTurn(len))
    {
      NextTurn(cs0, 0, e, ImageTurn(len));
      codomain := codomain + [Image(e)];
      cs := cs + [NonNegative(Image(e))];
      cs := cs + [AtMost(Image(e), len - 1)];
    }
    cs := cs + [Distinct(codomain)];
    Added(cs0, BijectionConstraints(len));
  }

  method EncodeLabelPreservation(y: PartialString, cs0: seq<Constraint>) returns (cs: seq<Constraint>)
    ensures cs == cs0 + KeptLabelConstraints(y.labels)
    ensures forall m :: AllHold(cs, m) <==> AllHold(cs0, m) && KeepsLabels(y.labels, m)
  {
    cs := cs0;
    for e := 0 to |y.labels|
      invariant cs == cs0 + Gather(0, e, KeptLabelTurn(y.labels))
    {
      NextTurn(cs0, 0, e, KeptLabelTurn(y.labels));
      cs := cs + [LabelIs(Image(e), y.labels[e])];
    }
    Added(cs0, KeptLabelConstraints(y.labels));
  }

  method EncodeMorphism(y: PartialString, cs0: seq<Constraint>) returns (cs: seq<Constraint>)
    requires |y.labels| == y.length
    ensures cs == cs0 + MorphismConstraints(y)
    ensures forall m :: AllHold(cs, m) <==>
      AllHold(cs0, m) && Monotone(y.order, m) && InjectiveInto(y.length, m) && KeepsLabels(y.labels, m)
  {
    cs := EncodeMonotone(y, cs0);
    if y.length > 0 {
      cs := EncodeBijection(y.length, cs);
      cs := EncodeLabelPreservation(y, cs);
    }
    Added(cs0, MorphismConstraints(y));
  }

  method EncodeRefinement(x: PartialString, y: PartialString, cs0: seq<Constraint>) returns (cs: seq<Constraint>)
    requires |y.labels| == y.length
    ensures cs == cs0 + Query(x, y)
    ensures forall m :: AllHold(cs, m) <==> AllHold(cs0, m) && Encodes(x, y, m)
  {
    cs := EncodeStrictPartialOrder(x, cs0);
    cs := EncodeIncomparables(x, cs);
    cs := EncodeLabels(x, cs);
    cs := EncodeMorphism(y, cs);
    InQueryOrder(cs0, OrderConstraints(x), IncomparableConstraints(x.incomparables), LabelConstraints(x.labels),
                 MorphismConstraints(y));
    Added(cs0, Query(x, y));
  }

  // ---- Exactness ---------------------------------------------------------------------------

  /** The order a model gives to the events of `x`. */
  ghost function OrderOf(x: PartialString, m: Model): (nat, nat) -> bool
  {
    (e: nat, f: nat) => e < x.length && f < x.length && m.order(e, f)
  }

  lemma OrderIsTransitive(x: PartialString, m: Model, e: nat, c: nat, f: nat)
    requires OrdersEvents(x, m) && OrderOf(x, m)(e, c) && OrderOf(x, m)(c, f)
    ensures OrderOf(x, m)(e, f)
  {
    assert e != c && c != f;
    assert AsymmetricFrom(e, x.length, x.length, m) && AsymmetricFrom(c, x.length, x.length, m);
    assert e != f;
    assert ComposesThrough(e, x.length, x.length, m);
    assert ComposesTo(e, c, x.length, m);
    assert Composes(e, c, f, m);
  }

  /** Whatever `x` orders, every model orders. */
  lemma ClosureIsOrdered(x: PartialString, m: Model, e: nat, f: nat)
    requires Valid(x) && OrdersEvents(x, m) && Before(x, e, f)
    ensures OrderOf(x, m)(e, f)
  {
    forall a: nat, b: nat, c: nat | OrderOf(x, m)(a, b) && OrderOf(x, m)(b, c) ensures OrderOf(x, m)(a, c) {
      OrderIsTransitive(x, m, a, b, c);
    }
    ClosureIsLeast(x.order, OrderOf(x, m), e, f);
  }

  /** Every model agrees with the full order of `x` on every pair of events, although only
      the stored edges and the incomparable pairs are encoded. */
  lemma ModelOrderIsExact(x: PartialString, m: Model, e: nat, f: nat)
    requires Valid(x) && OrdersEvents(x, m) && Unordered(x.incomparables, m)
    requires e < x.length && f < x.length
    ensures m.order(e, f) <==> Before(x, e, f)
  {
    if Before(x, e, f) {
      ClosureIsOrdered(x, m, e, f);
    } else if Before(x, f, e) {
      ClosureIsOrdered(x, m, f, e);
      assert AsymmetricFrom(e, x.length, x.length, m) && AsymmetricFrom(f, x.length, x.length, m);
    } else if e != f {
      assert Listed(x, e, f);
    }
  }

  ghost predicate MapsInto(h: seq<nat>, y: PartialString, x: PartialString)
  {
    |h| == y.length && (forall e :: 0 <= e < |h| ==> h[e] < x.length)
  }

  ghost predicate KeepsOrder(h: seq<nat>, y: PartialString, x: PartialString, e: nat, f: nat)
  {
    e < |h| && f < |h| && Before(x, h[e], h[f])
  }

  /** Keeping the order of the stored edges is keeping the order of all pairs. */
  lemma EdgesSuffice(h: seq<nat>, y: PartialString, x: PartialString, e: nat, f: nat)
    requires Valid(x) && Valid(y) && MapsInto(h, y, x)
    requires forall p :: p in y.order ==> KeepsOrder(h, y, x, p.0, p.1)
    requires Before(y, e, f)
    ensures KeepsOrder(h, y, x, e, f)
  {
    var r := (a: nat, b: nat) => KeepsOrder(h, y, x, a, b);
    forall a: nat, b: nat, c: nat | r(a, b) && r(b, c) ensures r(a, c) {
      ClosureTransitive(x.order, h[a], h[b], h[c]);
    }
    ClosureIsLeast(y.order, r, e, f);
  }

  lemma ModelGivesMorphism(x: PartialString, y: PartialString, m: Model) returns (h: seq<nat>)
    requires Valid(x) && Valid(y) && x.length == y.length && Encodes(x, y, m)
    ensures IsMorphism(h, y, x) && forall e :: 0 <= e < |h| ==> h[e] == m.image(e)
  {
    h := seq(y.length, (e: int) requires 0 <= e < y.length => m.image(e) as nat);
    forall p | p in y.order ensures KeepsOrder(h, y, x, p.0, p.1) {
      ModelOrderIsExact(x, m, h[p.0], h[p.1]);
    }
    forall e: nat, f: nat | Before(y, e, f) ensures KeepsOrder(h, y, x, e, f) {
      EdgesSuffice(h, y, x, e, f);
    }
  }

  /** The model made from a morphism. */
  ghost function ModelOf(h: seq<nat>, x: PartialString): Model
  {
    Model((e: int, f: int) => 0 <= e && 0 <= f && Before(x, e, f),
          (e: int) => if 0 <= e < |h| then h[e] else 0,
          (e: int) => if 0 <= e < |x.labels| then x.labels[e] else 0)
  }

  lemma ClosureOrdersEvents(x: PartialString, m: Model)
    requires Valid(x) && forall e: nat, f: nat :: m.order(e, f) <==> Before(x, e, f)
    ensures OrdersEvents(x, m) && Unordered(x.incomparables, m)
  {
    forall p | p in x.order ensures m.order(p.0, p.1) {
      EdgeInClosure(x.order, p.0, p.1);
    }
    forall a: nat, b: nat, c: nat | Before(x, a, b) && Before(x, b, c) ensures Before(x, a, c) {
      ClosureTransitive(x.order, a, b, c);
    }
    forall p | p in x.incomparables ensures !m.order(p.0, p.1) && !m.order(p.1, p.0) {
      assert Listed(x, p.0, p.1);
    }
  }

  lemma MorphismGivesModel(h: seq<nat>, x: PartialString, y: PartialString)
    requires Valid(x) && Valid(y) && IsMorphism(h, y, x)
    ensures Encodes(x, y, ModelOf(h, x))
  {
    ClosureOrdersEvents(x, ModelOf(h, x));
    MorphismIsMonotone(h, x, y);
    MorphismKeepsLabels(h, x, y);
  }

  lemma MorphismIsMonotone(h: seq<nat>, x: PartialString, y: PartialString)
    requires EdgesInRange(y.order, y.length) && IsMorphism(h, y, x)
    ensures Monotone(y.order, ModelOf(h, x))
  {
    var m := ModelOf(h, x);
    forall p | p in y.order ensures m.order(m.image(p.0), m.image(p.1)) {
      EdgeInClosure(y.order, p.0, p.1);
      assert Before(y, p.0, p.1);
    }
  }

  lemma MorphismKeepsLabels(h: seq<nat>, x: PartialString, y: PartialString)
    requires IsMorphism(h, y, x)
    ensures var m := ModelOf(h, x);
      LabelsAre(x.labels, m) && InjectiveInto(y.length, m) && KeepsLabels(y.labels, m)
  {
  }

  /** The formula is satisfiable exactly when `x` refines `y`. */
  lemma EncodingExact(x: PartialString, y: PartialString)
    requires Valid(x) && Valid(y) && x.length == y.length
    ensures (exists m :: Encodes(x, y, m)) <==> Refines(x, y)
  {
    forall m | Encodes(x, y, m) ensures Refines(x, y) {
      var h := ModelGivesMorphism(x, y, m);
    }
    if Refines(x, y) {
      var h :| IsMorphism(h, y, x);
      MorphismGivesModel(h, x, y);
    }
  }

  // ---- Morphisms are bijections, and the shortcut is safe ---------------------------------

  /** An injection of `n` numbers into `n` numbers misses none. */
  lemma InjectionsAreOnto(h: seq<nat>, k: nat) returns (e: nat)
    requires forall i :: 0 <= i < |h| ==> h[i] < |h|
    requires forall i, j :: 0 <= i < j < |h| ==> h[i] != h[j]
    requires k < |h|
    ensures e < |h| && h[e] == k
  {
    var image := set i | 0 <= i < |h| :: h[i];
    ImageSize(h);
    if k !in image {
      assert image <= Below(|h|) - {k};
      SubsetSize(image, Below(|h|) - {k});
      assert false;
    }
    e :| e < |h| && h[e] == k;
  }

  lemma {:induction false} ImageSize(h: seq<nat>)
    requires forall i, j :: 0 <= i < j < |h| ==> h[i] != h[j]
    ensures |set i | 0 <= i < |h| :: h[i]| == |h|
  {
    if h != [] {
      var k := |h| - 1;
      var front := h[..k];
      ImageSize(front);
      var before := set i | 0 <= i < |front| :: front[i];
      assert forall i :: 0 <= i < k ==> front[i] == h[i];
      assert (set i | 0 <= i < |h| :: h[i]) == before + {h[k]};
      assert h[k] !in before;
    }
  }

  function Below(n: nat): (s: set<nat>)
    ensures |s| == n && forall i: nat :: i in s <==> i < n
  {
    if n == 0 then {} else Below(n - 1) + {n - 1}
  }

  lemma SubsetSize(s: set<nat>, t: set<nat>)
    requires s <= t
    ensures |s| <= |t|
  {
    assert t == s + (t - s);
  }

  /** Labels occur in `x` exactly when they occur in `y`. */
  lemma SameLabels(x: PartialString, y: PartialString, l: Label)
    requires Refines(x, y)
    ensures l in x.labels <==> l in y.labels
  {
    var h :| IsMorphism(h, y, x);
    if l in y.labels {
      var e :| 0 <= e < |y.labels| && y.labels[e] == l;
      assert x.labels[h[e]] == l;
    }
    if l in x.labels {
      var k :| 0 <= k < |x.labels| && x.labels[k] == l;
      var e := InjectionsAreOnto(h, k);
      assert y.labels[e] == l;
    }
  }

  predicate Mismatch(x: PartialString, y: PartialString)
  {
    x.length != y.length || x.minLabel != y.minLabel || x.maxLabel != y.maxLabel
  }

  /** The shortcut never rejects a real refinement. */
  lemma ShortcutIsSafe(x: PartialString, y: PartialString)
    requires Valid(x) && Valid(y)
    ensures Refines(x, y) ==> !Mismatch(x, y)
  {
    if Refines(x, y) {
      SameLabels(x, y, x.minLabel);
      SameLabels(x, y, x.maxLabel);
      SameLabels(x, y, y.minLabel);
      SameLabels(x, y, y.maxLabel);
    }
  }

  /** The query is satisfiable exactly for refinements. */
  lemma QueryExact(x: PartialString, y: PartialString)
    requires Valid(x) && Valid(y) && x.length == y.length
    ensures Satisfiable(Query(x, y)) <==> Refines(x, y)
  {
    EncodingExact(x, y);
  }

  // ---- The check -----------------------------------------------------------------------------

  datatype Answer = Unsat | Sat | Unknown

  /** A solver that never gives a wrong answer; it may give up. */
  ghost predicate Trustworthy(oracle: seq<Constraint> -> Answer)
  {
    forall cs :: (oracle(cs) == Sat ==> Satisfiable(cs)) && (oracle(cs) == Unsat ==> !Satisfiable(cs))
  }

  /** The answer of the check, whatever the solver is like: no mismatch, and the solver says
      that the query is satisfiable. */
  predicate Accepts(x: PartialString, y: PartialString, oracle: seq<Constraint> -> Answer)
  {
    |y.labels| == y.length && !Mismatch(x, y) && oracle(Query(x, y)) == Sat
  }

  /** A solver that makes no mistakes accepts refinements only, and rejects them only by
      giving up. */
  lemma AcceptsExact(x: PartialString, y: PartialString, oracle: seq<Constraint> -> Answer)
    requires Valid(x) && Valid(y)
    ensures Trustworthy(oracle) && Accepts(x, y, oracle) ==> Refines(x, y)
    ensures Trustworthy(oracle) && Refines(x, y) ==> Accepts(x, y, oracle) || oracle(Query(x, y)) == Unknown
  {
    ShortcutIsSafe(x, y);
    if !Mismatch(x, y) {
      QueryExact(x, y);
    }
  }

  class Refinement {
    var solver: seq<Constraint>
    var checks: nat
    var shortcuts: nat
    var solverCalls: nat

    constructor ()
      ensures solver == [] && checks == shortcuts == solverCalls == 0
    {
      solver, checks, shortcuts, solverCalls := [], 0, 0, 0;
    }

    method Shortcut(x: PartialString, y: PartialString) returns (rejected: bool)
      modifies this`shortcuts
      ensures rejected <==> Mismatch(x, y)
      ensures shortcuts == old(shortcuts) + if rejected then 1 else 0
    {
      rejected := x.length != y.length || x.minLabel != y.minLabel || x.maxLabel != y.maxLabel;
      if rejected {
        shortcuts := shortcuts + 1;
      }
    }

    /** Does `x` refine `y`? */
    method Check(x: PartialString, y: PartialString, oracle: seq<Constraint> -> Answer) returns (r: bool)
      requires Valid(x) && Valid(y) && solver == []
      modifies this
      ensures solver == [] && checks == old(checks) + 1
      ensures solverCalls == old(solverCalls) + if Mismatch(x, y) then 0 else 1
      ensures r <==> Accepts(x, y, oracle)
      ensures Trustworthy(oracle) && r ==> Refines(x, y)
      ensures Trustworthy(oracle) && Refines(x, y) ==> r || oracle(Query(x, y)) == Unknown
      ensures !Mismatch(x, y) ==> (Satisfiable(Query(x, y)) <==> Refines(x, y))
    {
      checks := checks + 1;
      AcceptsExact(x, y, oracle);
      if !Mismatch(x, y) {
        QueryExact(x, y);
      }
      var rejected := Shortcut(x, y);
      if rejected {
        return false;
      }
      solver := EncodeRefinement(x, y, solver);
      assert solver == Query(x, y);
      solverCalls := solverCalls + 1;
      r := oracle(solver) == Sat;
      solver := [];
    }
  }
}
