/** The axioms of release-acquire memory, as constraints over a happens-before order, the
    value of each event and the store each load reads from. */
module ReleaseAcquire {
  import opened MemoryLabels

  type Event = nat
  type Events = seq<Event>

  // ---- Constraints ------------------------------------------------------------------------

  datatype Constraint =
    | Precedes(a: Event, b: Event)
    | ValueIs(e: Event, byte: nat)
    | SameValue(a: Event, b: Event)
    | ReadsFrom(load: Event, store: Event)
    | Not(c: Constraint)
    | Either(c: Constraint, d: Constraint)
    | Implies(c: Constraint, d: Constraint)
    | All(cs: seq<Constraint>)
    | Any(cs: seq<Constraint>)

  datatype Model = Model(order: (Event, Event) -> bool, value: Event -> int, source: Event -> int)

  predicate Holds(c: Constraint, m: Model)
  {
    match c
    case Precedes(a, b) => m.order(a, b)
    case ValueIs(e, n) => m.value(e) == n
    case SameValue(a, b) => m.value(a) == m.value(b)
    case ReadsFrom(l, s) => m.source(l) == s
    case Not(d) => !Holds(d, m)
    case Either(d, e) => Holds(d, m) || Holds(e, m)
    case Implies(d, e) => Holds(d, m) ==> Holds(e, m)
    case All(cs) => forall i :: 0 <= i < |cs| ==> Holds(cs[i], m)
    case Any(cs) => exists i :: 0 <= i < |cs| && Holds(cs[i], m)
  }

  ghost predicate AllHold(cs: seq<Constraint>, m: Model)
  {
    forall i :: 0 <= i < |cs| ==> Holds(cs[i], m)
  }

  ghost predicate AnyHolds(cs: seq<Constraint>, m: Model)
  {
    exists i :: 0 <= i < |cs| && Holds(cs[i], m)
  }

  method Push(cs: seq<Constraint>, c: Constraint) returns (cs': seq<Constraint>)
    ensures cs' == cs + [c]
    ensures forall m :: AllHold(cs', m) <==> AllHold(cs, m) && Holds(c, m)
    ensures forall m :: AnyHolds(cs', m) <==> AnyHolds(cs, m) || Holds(c, m)
  {
    cs' := cs + [c];
    forall m ensures AllHold(cs', m) <==> AllHold(cs, m) && Holds(c, m)
      ensures AnyHolds(cs', m) <==> AnyHolds(cs, m) || Holds(c, m)
    {
      assert cs'[|cs|] == c;
      assert forall i :: 0 <= i < |cs| ==> cs'[i] == cs[i];
      if AnyHolds(cs, m) {
        var i :| 0 <= i < |cs| && Holds(cs[i], m);
        assert Holds(cs'[i], m);
      }
    }
  }

  // connectives with their meaning at hand
  function Conjunction(cs: seq<Constraint>): (c: Constraint)
    ensures forall m :: Holds(c, m) <==> AllHold(cs, m)
  {
    All(cs)
  }

  function Disjunction(cs: seq<Constraint>): (c: Constraint)
    ensures forall m :: Holds(c, m) <==> AnyHolds(cs, m)
  {
    Any(cs)
  }

  function Negation(d: Constraint): (c: Constraint)
    ensures forall m :: Holds(c, m) <==> !Holds(d, m)
  {
    Not(d)
  }

  function IfThen(d: Constraint, e: Constraint): (c: Constraint)
    ensures forall m :: Holds(c, m) <==> (Holds(d, m) ==> Holds(e, m))
  {
    Implies(d, e)
  }

  // ---- Guards -----------------------------------------------------------------------------

  /** Maps an event to the assumption guarding it, or to itself. */
  type AssumeMap = seq<Event>

  predicate IsGuarded(guards: AssumeMap, e: Event)
  {
    e < |guards| && guards[e] != e
  }

  /** Guards are earlier events that assume a byte. */
  predicate WellGuarded(guards: AssumeMap, labels: seq<Label>)
  {
    forall e :: 0 <= e < |guards| && guards[e] != e ==>
      guards[e] < e && guards[e] < |labels| && IsAcquireLoad(labels[guards[e]]) && IsAssume(labels[guards[e]])
  }

  /** What the assumption `e` says about the value it reads. */
  predicate Assumption(labels: seq<Label>, e: Event, m: Model)
    requires e < |labels|
  {
    if IsAssumeEq(labels[e]) then m.value(e) == Byte(labels[e]) else m.value(e) != Byte(labels[e])
  }

  /** All assumptions on the way to `e` hold. */
  predicate Enabled(guards: AssumeMap, labels: seq<Label>, e: Event, m: Model)
    requires WellGuarded(guards, labels)
  {
    IsGuarded(guards, e) ==> Assumption(labels, guards[e], m) && Enabled(guards, labels, guards[e], m)
  }

  function AssumptionTerm(labels: seq<Label>, e: Event): (c: Constraint)
    requires e < |labels|
    ensures forall m :: Holds(c, m) <==> Assumption(labels, e, m)
  {
    if IsAssumeEq(labels[e]) then ValueIs(e, Byte(labels[e])) else Negation(ValueIs(e, Byte(labels[e])))
  }

  /** The conjunction of all guards of `event`. */
  method Guard(guards: AssumeMap, labels: seq<Label>, event: Event) returns (c: Constraint)
    requires WellGuarded(guards, labels) && IsGuarded(guards, event)
    ensures forall m :: Holds(c, m) <==> Enabled(guards, labels, event, m)
  {
    var e := event;
    var cs: seq<Constraint> := [];
    while IsGuarded(guards, e)
      invariant forall m :: Enabled(guards, labels, event, m) <==> AllHold(cs, m) && Enabled(guards, labels, e, m)
      invariant e == event || cs != []
      decreases e
    {
      cs := Push(cs, AssumptionTerm(labels, guards[e]));
      e := guards[e];
    }
    c := Conjunction(cs);
    if |cs| == 1 {
      c := cs[0];
    }
  }

  // ---- Stores and loads by address ----------------------------------------------------------

  predicate StoresTo(labels: seq<Label>, e: Event, address: nat)
  {
    e < |labels| && IsReleaseStore(labels[e]) && Address(labels[e]) == address
  }

  predicate LoadsFrom(labels: seq<Label>, e: Event, address: nat)
  {
    e < |labels| && IsAcquireLoad(labels[e]) && Address(labels[e]) == address
  }

  /** An ascending list of the events below `n` that store to an address. */
  ghost predicate ListsStores(labels: seq<Label>, n: nat, address: nat, es: Events)
  {
    && (forall e: nat :: e in es <==> e < n && StoresTo(labels, e, address))
    && (forall i, j :: 0 <= i < j < |es| ==> es[i] < es[j])
  }

  ghost predicate ListsLoads(labels: seq<Label>, n: nat, address: nat, es: Events)
  {
    && (forall e: nat :: e in es <==> e < n && LoadsFrom(labels, e, address))
    && (forall i, j :: 0 <= i < j < |es| ==> es[i] < es[j])
  }

  ghost predicate Filed(labels: seq<Label>, n: nat, storeMap: seq<Events>, loadMap: seq<Events>)
  {
    && |storeMap| == |loadMap|
    && (forall a :: 0 <= a < |storeMap| ==> ListsStores(labels, n, a, storeMap[a]))
    && (forall a :: 0 <= a < |loadMap| ==> ListsLoads(labels, n, a, loadMap[a]))
  }

  ghost predicate MaxLabel(labels: seq<Label>, maxLabel: Label)
  {
    maxLabel < LABEL_LIMIT && forall l :: l in labels ==> l <= maxLabel
  }

  method StoreLoadFilter(labels: seq<Label>, maxLabel: Label)
    returns (maxAddress: nat, storeMap: seq<Events>, loadMap: seq<Events>)
    requires MaxLabel(labels, maxLabel)
    ensures |storeMap| == maxAddress + 1 && Filed(labels, |labels|, storeMap, loadMap)
    ensures forall l :: l in labels ==> Address(l) <= maxAddress
  {
    maxAddress := Address(maxLabel);
    storeMap := seq(maxAddress + 1, _ => []);
    loadMap := seq(maxAddress + 1, _ => []);
    for e := 0 to |labels|
      invariant |storeMap| == maxAddress + 1 && Filed(labels, e, storeMap, loadMap)
    {
      assert labels[e] in labels;
      AddressMonotone(labels[e], maxLabel);
      var address := Address(labels[e]);
      ghost var before, before' := storeMap, loadMap;
      if IsReleaseStore(labels[e]) {
        storeMap := storeMap[address := storeMap[address] + [e]];
      }
      if IsAcquireLoad(labels[e]) {
        loadMap := loadMap[address := loadMap[address] + [e]];
      }
      FiledOneMore(labels, e, before, before', storeMap, loadMap);
    }
    forall l | l in labels ensures Address(l) <= maxAddress {
      AddressMonotone(l, maxLabel);
    }
  }

  lemma FiledOneMore(labels: seq<Label>, e: Event, storeMap: seq<Events>, loadMap: seq<Events>,
                     storeMap': seq<Events>, loadMap': seq<Events>)
    requires e < |labels| && Filed(labels, e, storeMap, loadMap) && Address(labels[e]) < |storeMap|
    requires storeMap' == if IsReleaseStore(labels[e]) then
                            storeMap[Address(labels[e]) := storeMap[Address(labels[e])] + [e]] else storeMap
    requires loadMap' == if IsAcquireLoad(labels[e]) then
                           loadMap[Address(labels[e]) := loadMap[Address(labels[e])] + [e]] else loadMap
    ensures Filed(labels, e + 1, storeMap', loadMap')
  {
    forall a | 0 <= a < |storeMap'| ensures ListsStores(labels, e + 1, a, storeMap'[a]) {
      assert ListsStores(labels, e, a, storeMap[a]);
      StoresOneMore(labels, e, a, storeMap[a]);
    }
    forall a | 0 <= a < |loadMap'| ensures ListsLoads(labels, e + 1, a, loadMap'[a]) {
      assert ListsLoads(labels, e, a, loadMap[a]);
      LoadsOneMore(labels, e, a, loadMap[a]);
    }
  }

  lemma StoresOneMore(labels: seq<Label>, e: Event, a: nat, es: Events)
    requires e < |labels| && ListsStores(labels, e, a, es)
    ensures ListsStores(labels, e + 1, a, if StoresTo(labels, e, a) then es + [e] else es)
  {
    assert forall i :: 0 <= i < |es| ==> es[i] in es;
  }

  lemma LoadsOneMore(labels: seq<Label>, e: Event, a: nat, es: Events)
    requires e < |labels| && ListsLoads(labels, e, a, es)
    ensures ListsLoads(labels, e + 1, a, if LoadsFrom(labels, e, a) then es + [e] else es)
  {
    assert forall i :: 0 <= i < |es| ==> es[i] in es;
  }

  // ---- What the axioms say --------------------------------------------------------------------

  /** The store writes what the load assumes not to read. */
  predicate Conflicts(labels: seq<Label>, store: Event, load: Event)
    requires store < |labels| && load < |labels|
  {
    || (IsAssumeEq(labels[load]) && Byte(labels[store]) != Byte(labels[load]))
    || (IsAssumeNeq(labels[load]) && Byte(labels[store]) == Byte(labels[load]))
  }

  datatype Memory = Memory(guards: AssumeMap, labels: seq<Label>)
  {
    ghost predicate Valid() { WellGuarded(guards, labels) }

    predicate Runs(e: Event, m: Model) requires WellGuarded(guards, labels) { Enabled(guards, labels, e, m) }

    predicate Store(e: Event) { e < |labels| && IsReleaseStore(labels[e]) }
    predicate Load(e: Event) { e < |labels| && IsAcquireLoad(labels[e]) }

    predicate Shared(e: Event, f: Event) { e < |labels| && f < |labels| && Address(labels[e]) == Address(labels[f]) }

    /** A store the load may read from. */
    predicate Candidate(store: Event, load: Event)
    {
      Store(store) && Load(load) && Shared(store, load) && !Conflicts(labels, store, load)
    }
  }

  /** Unless the load's assumption is contradicted, an enabled load reads from somewhere. */
  ghost predicate Contradicted(w: Memory, load: Event, m: Model)
  {
    w.guards != [] && w.Load(load) && IsAssume(w.labels[load]) && !Assumption(w.labels, load, m)
  }

  ghost predicate SomeSource(w: Memory, stores: Events, load: Event, m: Model)
  {
    exists a :: a in stores && w.Candidate(a, load) && m.source(load) == a
  }

  ghost predicate SomeReadFrom(w: Memory, stores: Events, load: Event, m: Model)
    requires w.Valid()
  {
    w.Runs(load, m) ==> SomeSource(w, stores, load, m) || Contradicted(w, load, m)
  }

  ghost predicate SynchronizesWith(w: Memory, a: Event, load: Event, m: Model)
    requires w.Valid()
  {
    w.Candidate(a, load) && m.source(load) == a ==>
      m.order(a, load) && m.value(a) == m.value(load) && w.Runs(a, m)
  }

  ghost predicate FromReadPair(w: Memory, a: Event, b: Event, load: Event, m: Model)
    requires w.Valid()
  {
    a != b && w.Candidate(a, load) && m.source(load) == a && m.order(a, b) && w.Runs(b, m) ==> m.order(load, b)
  }

  ghost predicate FromRead(w: Memory, stores: Events, a: Event, load: Event, m: Model)
    requires w.Valid()
  {
    forall b :: b in stores ==> FromReadPair(w, a, b, load, m)
  }

  ghost predicate AllSynchronize(w: Memory, stores: Events, load: Event, m: Model)
    requires w.Valid()
  {
    forall a :: a in stores ==> SynchronizesWith(w, a, load, m)
  }
}
