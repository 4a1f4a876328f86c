/** Loops that emit the release-acquire axioms, each proved to emit exactly their meaning. */
module ReleaseAcquireEncoding {
  import opened MemoryLabels
  import opened ReleaseAcquire

  /** The conjuncts gathered so far, by kind. */
  datatype Axioms = Axioms(allRf: seq<Constraint>, orderSw: seq<Constraint>, mo: seq<Constraint>,
                           orderFr: seq<Constraint>, values: seq<Constraint>)
  {
    ghost predicate Hold(m: Model)
    {
      AllHold(allRf, m) && AllHold(orderSw, m) && AllHold(mo, m) && AllHold(orderFr, m) && AllHold(values, m)
    }
  }

  // ---- One load -----------------------------------------------------------------------------

  lemma TakeOneMore(es: Events, i: nat)
    requires i < |es|
    ensures forall e :: e in es[..i + 1] <==> e in es[..i] || e == es[i]
  {
    assert es[..i + 1] == es[..i] + [es[i]];
  }

  /** If `load` reads from `a`, and `a` precedes an enabled `b`, then `load` precedes `b`. */
  method FromReadTerm(w: Memory, a: Event, b: Event, load: Event) returns (c: Constraint)
    requires w.Valid() && w.Candidate(a, load) && a != b
    ensures forall m :: Holds(c, m) <==> FromReadPair(w, a, b, load, m)
  {
    var premises := Push([], ReadsFrom(load, a));
    premises := Push(premises, Precedes(a, b));
    if IsGuarded(w.guards, b) {
      var g := Guard(w.guards, w.labels, b);
      premises := Push(premises, g);
    }
    c := IfThen(Conjunction(premises), Precedes(load, b));
  }

  method EncodeFromRead(w: Memory, stores: Events, a: Event, load: Event, fr0: seq<Constraint>)
    returns (fr: seq<Constraint>)
    requires w.Valid() && w.Candidate(a, load)
    ensures forall m :: AllHold(fr, m) <==> AllHold(fr0, m) && FromRead(w, stores, a, load, m)
  {
    fr := fr0;
    for i := 0 to |stores|
      invariant forall m :: AllHold(fr, m) <==> AllHold(fr0, m) && FromRead(w, stores[..i], a, load, m)
    {
      TakeOneMore(stores, i);
      if a != stores[i] {
        var c := FromReadTerm(w, a, stores[i], load);
        fr := Push(fr, c);
      }
    }
    assert stores[..|stores|] == stores;
  }

  method SynchronizeTerm(w: Memory, a: Event, load: Event) returns (c: Constraint)
    requires w.Valid() && w.Candidate(a, load)
    ensures forall m :: Holds(c, m) <==> SynchronizesWith(w, a, load, m)
  {
    var swThen := Push([], Precedes(a, load));
    swThen := Push(swThen, SameValue(a, load));
    if IsGuarded(w.guards, a) {
      var g := Guard(w.guards, w.labels, a);
      swThen := Push(swThen, g);
    }
    c := IfThen(ReadsFrom(load, a), Conjunction(swThen));
  }

  ghost predicate Reads(w: Memory, stores: Events, all: Events, load: Event, m: Model)
    requires w.Valid()
  {
    AllSynchronize(w, stores, load, m) && forall a :: a in stores ==> FromRead(w, all, a, load, m)
  }

  ghost predicate NoCandidate(w: Memory, stores: Events, load: Event)
  {
    forall a :: a in stores ==> !w.Candidate(a, load)
  }

  ghost predicate AllStores(w: Memory, stores: Events, load: Event)
  {
    forall a :: a in stores ==> w.Store(a) && w.Load(load) && w.Shared(a, load)
  }

  lemma ReadsOneMore(w: Memory, stores: Events, i: nat, load: Event)
    requires w.Valid() && i < |stores|
    ensures forall m :: Reads(w, stores[..i + 1], stores, load, m) <==>
      && Reads(w, stores[..i], stores, load, m)
      && SynchronizesWith(w, stores[i], load, m) && FromRead(w, stores, stores[i], load, m)
  {
    TakeOneMore(stores, i);
  }

  lemma SourcesOneMore(w: Memory, stores: Events, i: nat, load: Event)
    requires i < |stores|
    ensures NoCandidate(w, stores[..i + 1], load) <==>
      NoCandidate(w, stores[..i], load) && !w.Candidate(stores[i], load)
    ensures forall m :: SomeSource(w, stores[..i + 1], load, m) <==>
      SomeSource(w, stores[..i], load, m) || (w.Candidate(stores[i], load) && m.source(load) == stores[i])
  {
    TakeOneMore(stores, i);
  }

  /** Candidate stores that conflict with the assumption of the load are skipped. */
  method EncodeReads(w: Memory, stores: Events, load: Event, sw0: seq<Constraint>, fr0: seq<Constraint>)
    returns (someRf: seq<Constraint>, sw: seq<Constraint>, fr: seq<Constraint>)
    requires w.Valid() && AllStores(w, stores, load)
    ensures forall m :: AnyHolds(someRf, m) <==> SomeSource(w, stores, load, m)
    ensures someRf == [] <==> NoCandidate(w, stores, load)
    ensures forall m :: AllHold(sw, m) && AllHold(fr, m) <==>
      AllHold(sw0, m) && AllHold(fr0, m) && Reads(w, stores, stores, load, m)
  {
    someRf, sw, fr := [], sw0, fr0;
    for i := 0 to |stores|
      invariant forall m :: AnyHolds(someRf, m) <==> SomeSource(w, stores[..i], load, m)
      invariant someRf == [] <==> NoCandidate(w, stores[..i], load)
      invariant forall m :: AllHold(sw, m) && AllHold(fr, m) <==>
        AllHold(sw0, m) && AllHold(fr0, m) && Reads(w, stores[..i], stores, load, m)
    {
      var a := stores[i];
      ReadsOneMore(w, stores, i, load);
      SourcesOneMore(w, stores, i, load);
      assert a in stores;
      if Conflicts(w.labels, a, load) {
        continue;
      }
      someRf := Push(someRf, ReadsFrom(load, a));
      var c := SynchronizeTerm(w, a, load);
      sw := Push(sw, c);
      fr := EncodeFromRead(w, stores, a, load, fr);
    }
    assert stores[..|stores|] == stores;
  }

  ghost predicate LoadAxioms(w: Memory, stores: Events, load: Event, m: Model)
    requires w.Valid()
  {
    SomeReadFrom(w, stores, load, m) && Reads(w, stores, stores, load, m)
  }

  /** The disjuncts for one load, or that it can never read. */
  method EncodeSomeReadFrom(w: Memory, stores: Events, load: Event, someRf0: seq<Constraint>,
                            allRf0: seq<Constraint>)
    returns (unsat: bool, allRf: seq<Constraint>)
    requires w.Valid() && AllStores(w, stores, load) && w.Load(load)
    requires forall m :: AnyHolds(someRf0, m) <==> SomeSource(w, stores, load, m)
    ensures unsat ==> forall m :: !SomeReadFrom(w, stores, load, m)
    ensures !unsat ==> forall m :: AllHold(allRf, m) <==> AllHold(allRf0, m) && SomeReadFrom(w, stores, load, m)
  {
    var someRf, kind := someRf0, w.labels[load];
    allRf := allRf0;
    if w.guards == [] && someRf == [] {
      return true, allRf;
    }
    if someRf == [] && !IsAssume(kind) {
      if !IsGuarded(w.guards, load) {
        return true, allRf;
      }
      var loadGuard := Guard(w.guards, w.labels, load);
      allRf := Push(allRf, Negation(loadGuard));
      return false, allRf;
    }
    if w.guards != [] {
      if IsAssumeEq(kind) {
        someRf := Push(someRf, Negation(ValueIs(load, Byte(kind))));
      } else if IsAssumeNeq(kind) {
        someRf := Push(someRf, ValueIs(load, Byte(kind)));
      }
    }
    AssumeKinds(kind);
    assert forall m :: AnyHolds(someRf, m) <==> SomeSource(w, stores, load, m) || Contradicted(w, load, m);
    if IsGuarded(w.guards, load) {
      var loadGuard := Guard(w.guards, w.labels, load);
      allRf := Push(allRf, IfThen(loadGuard, Disjunction(someRf)));
    } else {
      allRf := Push(allRf, Disjunction(someRf));
    }
    unsat := false;
  }

  lemma AssumeKinds(l: Label)
    ensures IsAssume(l) <==> IsAssumeEq(l) || IsAssumeNeq(l)
    ensures !(IsAssumeEq(l) && IsAssumeNeq(l))
  {
  }

  method EncodeLoad(w: Memory, stores: Events, load: Event, ax0: Axioms) returns (unsat: bool, ax: Axioms)
    requires w.Valid() && AllStores(w, stores, load) && w.Load(load)
    ensures unsat ==> forall m :: !LoadAxioms(w, stores, load, m)
    ensures !unsat ==> forall m :: ax.Hold(m) <==> ax0.Hold(m) && LoadAxioms(w, stores, load, m)
  {
    var someRf, sw, fr := EncodeReads(w, stores, load, ax0.orderSw, ax0.orderFr);
    var allRf;
    unsat, allRf := EncodeSomeReadFrom(w, stores, load, someRf, ax0.allRf);
    ax := ax0.(allRf := allRf, orderSw := sw, orderFr := fr);
  }

  // ---- One address ------------------------------------------------------------------------------

  ghost predicate AllLoadAxioms(w: Memory, stores: Events, loads: Events, m: Model)
    requires w.Valid()
  {
    forall l :: l in loads ==> LoadAxioms(w, stores, l, m)
  }

  method EncodeLoads(w: Memory, stores: Events, loads: Events, ax0: Axioms) returns (unsat: bool, ax: Axioms)
    requires w.Valid() && forall l :: l in loads ==> AllStores(w, stores, l) && w.Load(l)
    ensures unsat ==> forall m :: !AllLoadAxioms(w, stores, loads, m)
    ensures !unsat ==> forall m :: ax.Hold(m) <==> ax0.Hold(m) && AllLoadAxioms(w, stores, loads, m)
  {
    unsat, ax := false, ax0;
    for i := 0 to |loads|
      invariant !unsat
      invariant forall m :: ax.Hold(m) <==> ax0.Hold(m) && AllLoadAxioms(w, stores, loads[..i], m)
    {
      assert loads[i] in loads;
      TakeOneMore(loads, i);
      unsat, ax := EncodeLoad(w, stores, loads[i], ax);
      if unsat {
        return;
      }
    }
    assert loads[..|loads|] == loads;
  }

  ghost predicate TotalAfter(a: Event, stores: Events, m: Model)
  {
    forall b :: b in stores && a < b ==> m.order(a, b) || m.order(b, a)
  }

  ghost predicate ModificationOrder(some: Events, stores: Events, m: Model)
  {
    forall a :: a in some ==> TotalAfter(a, stores, m)
  }

  method EncodeTotalAfter(a: Event, stores: Events, mo0: seq<Constraint>) returns (mo: seq<Constraint>)
    ensures forall m :: AllHold(mo, m) <==> AllHold(mo0, m) && TotalAfter(a, stores, m)
  {
    mo := mo0;
    for i := 0 to |stores|
      invariant forall m :: AllHold(mo, m) <==> AllHold(mo0, m) && TotalAfter(a, stores[..i], m)
    {
      TakeOneMore(stores, i);
      if a < stores[i] {
        mo := Push(mo, OneWay(a, stores[i]));
      }
    }
    assert stores[..|stores|] == stores;
  }

  function OneWay(a: Event, b: Event): (c: Constraint)
    ensures forall m :: Holds(c, m) <==> m.order(a, b) || m.order(b, a)
  {
    Either(Precedes(a, b), Precedes(b, a))
  }

  method EncodeModificationOrder(stores: Events, mo0: seq<Constraint>) returns (mo: seq<Constraint>)
    ensures forall m :: AllHold(mo, m) <==> AllHold(mo0, m) && ModificationOrder(stores, stores, m)
  {
    mo := mo0;
    for i := 0 to |stores|
      invariant forall m :: AllHold(mo, m) <==> AllHold(mo0, m) && ModificationOrder(stores[..i], stores, m)
    {
      TakeOneMore(stores, i);
      mo := EncodeTotalAfter(stores[i], stores, mo);
    }
    assert stores[..|stores|] == stores;
  }

  ghost predicate Written(labels: seq<Label>, stores: Events, m: Model)
  {
    forall a :: a in stores && a < |labels| ==> m.value(a) == Byte(labels[a])
  }

  method EncodeValues(labels: seq<Label>, stores: Events, values0: seq<Constraint>) returns (values: seq<Constraint>)
    requires forall a :: a in stores ==> a < |labels|
    ensures forall m :: AllHold(values, m) <==> AllHold(values0, m) && Written(labels, stores, m)
  {
    values := values0;
    for i := 0 to |stores|
      invariant forall m :: AllHold(values, m) <==> AllHold(values0, m) && Written(labels, stores[..i], m)
    {
      TakeOneMore(stores, i);
      assert stores[i] in stores;
      values := Push(values, ValueIs(stores[i], Byte(labels[stores[i]])));
    }
    assert stores[..|stores|] == stores;
  }

  ghost predicate AddressAxioms(w: Memory, stores: Events, loads: Events, m: Model)
    requires w.Valid()
  {
    Written(w.labels, stores, m) && AllLoadAxioms(w, stores, loads, m) && ModificationOrder(stores, stores, m)
  }

  method EncodeAddress(w: Memory, stores: Events, loads: Events, ax0: Axioms) returns (unsat: bool, ax: Axioms)
    requires w.Valid() && forall a :: a in stores ==> w.Store(a)
    requires forall l :: l in loads ==> AllStores(w, stores, l) && w.Load(l)
    ensures unsat ==> forall m :: !AddressAxioms(w, stores, loads, m)
    ensures !unsat ==> forall m :: ax.Hold(m) <==> ax0.Hold(m) && AddressAxioms(w, stores, loads, m)
  {
    var values := EncodeValues(w.labels, stores, ax0.values);
    ax := ax0.(values := values);
    assert forall m :: ax.Hold(m) <==> ax0.Hold(m) && Written(w.labels, stores, m);
    unsat, ax := EncodeLoads(w, stores, loads, ax);
    if !unsat {
      var ax1 := ax;
      var mo := EncodeModificationOrder(stores, ax1.mo);
      ax := ax1.(mo := mo);
      assert forall m :: ax.Hold(m) <==> ax1.Hold(m) && ModificationOrder(stores, stores, m);
    }
  }

  // ---- All addresses ------------------------------------------------------------------------------

  /** The axioms of address `a`, over the filed stores and loads. */
  ghost predicate FiledAxioms(w: Memory, storeMap: seq<Events>, loadMap: seq<Events>, n: nat, m: Model)
    requires w.Valid() && |storeMap| == |loadMap|
  {
    forall a :: 0 <= a < n && a < |storeMap| ==> AddressAxioms(w, storeMap[a], loadMap[a], m)
  }

  method EncodeAddresses(w: Memory, storeMap: seq<Events>, loadMap: seq<Events>) returns (unsat: bool, ax: Axioms)
    requires w.Valid() && Filed(w.labels, |w.labels|, storeMap, loadMap)
    ensures unsat ==> forall m :: !FiledAxioms(w, storeMap, loadMap, |storeMap|, m)
    ensures !unsat ==> forall m :: ax.Hold(m) <==> FiledAxioms(w, storeMap, loadMap, |storeMap|, m)
  {
    unsat, ax := false, Axioms([], [], [], [], []);
    for a := 0 to |storeMap|
      invariant !unsat
      invariant forall m :: ax.Hold(m) <==> FiledAxioms(w, storeMap, loadMap, a, m)
    {
      FiledEvents(w, storeMap, loadMap, a);
      unsat, ax := EncodeAddress(w, storeMap[a], loadMap[a], ax);
      if unsat {
        return;
      }
    }
  }

  lemma FiledEvents(w: Memory, storeMap: seq<Events>, loadMap: seq<Events>, a: nat)
    requires Filed(w.labels, |w.labels|, storeMap, loadMap) && a < |storeMap|
    ensures forall e :: e in storeMap[a] ==> w.Store(e)
    ensures forall l :: l in loadMap[a] ==> AllStores(w, storeMap[a], l) && w.Load(l)
  {
    assert ListsStores(w.labels, |w.labels|, a, storeMap[a]);
    assert ListsLoads(w.labels, |w.labels|, a, loadMap[a]);
  }

  /** The axioms over all events, without the filing by address. */
  ghost predicate MemoryAxioms(w: Memory, m: Model)
    requires w.Valid()
  {
    && (forall a: nat :: w.Store(a) ==> m.value(a) == Byte(w.labels[a]))
    && (forall a: nat, b: nat :: w.Store(a) && w.Store(b) && w.Shared(a, b) && a < b ==> m.order(a, b) || m.order(b, a))
    && (forall l: nat :: w.Load(l) ==> ReadAxioms(w, l, m))
  }

  ghost predicate ReadsFromSome(w: Memory, l: Event, m: Model)
  {
    exists a: nat :: w.Candidate(a, l) && m.source(l) == a
  }

  ghost predicate ReadAxioms(w: Memory, l: Event, m: Model)
    requires w.Valid()
  {
    && (w.Runs(l, m) ==> ReadsFromSome(w, l, m) || Contradicted(w, l, m))
    && (forall a: nat :: SynchronizesWith(w, a, l, m))
    && (forall a: nat, b: nat :: w.Store(b) && w.Shared(a, b) ==> FromReadPair(w, a, b, l, m))
  }

  ghost predicate Covers(w: Memory, stores: Events, l: Event)
  {
    forall a: nat :: a in stores <==> w.Store(a) && w.Shared(a, l)
  }

  lemma LoadAxiomsMeaning(w: Memory, stores: Events, l: Event, m: Model)
    requires w.Valid() && w.Load(l) && Covers(w, stores, l)
    ensures LoadAxioms(w, stores, l, m) <==> ReadAxioms(w, l, m)
  {
    assert SomeSource(w, stores, l, m) <==> ReadsFromSome(w, l, m);
    if LoadAxioms(w, stores, l, m) {
      forall a: nat ensures SynchronizesWith(w, a, l, m) {
        if w.Candidate(a, l) { assert a in stores; }
      }
      forall a: nat, b: nat | w.Store(b) && w.Shared(a, b) ensures FromReadPair(w, a, b, l, m) {
        if w.Candidate(a, l) { assert a in stores && b in stores && FromRead(w, stores, a, l, m); }
      }
    }
    if ReadAxioms(w, l, m) {
      forall a | a in stores ensures FromRead(w, stores, a, l, m) {
        forall b | b in stores ensures FromReadPair(w, a, b, l, m) {
          assert w.Store(b) && w.Shared(a, b);
        }
      }
    }
  }

  ghost predicate Complete(w: Memory, storeMap: seq<Events>, loadMap: seq<Events>)
  {
    && Filed(w.labels, |w.labels|, storeMap, loadMap)
    && forall l :: l in w.labels ==> Address(l) < |storeMap|
  }

  lemma FiledAt(w: Memory, storeMap: seq<Events>, loadMap: seq<Events>, e: Event) returns (a: nat)
    requires Complete(w, storeMap, loadMap) && e < |w.labels|
    ensures a == Address(w.labels[e]) < |storeMap|
    ensures w.Load(e) ==> e in loadMap[a] && Covers(w, storeMap[a], e)
    ensures forall f: nat :: f in storeMap[a] <==> w.Store(f) && w.Shared(f, e)
  {
    a := Address(w.labels[e]);
    assert w.labels[e] in w.labels;
    assert ListsStores(w.labels, |w.labels|, a, storeMap[a]);
    assert ListsLoads(w.labels, |w.labels|, a, loadMap[a]);
  }

  lemma FiledToMemory(w: Memory, storeMap: seq<Events>, loadMap: seq<Events>, m: Model)
    requires w.Valid() && Complete(w, storeMap, loadMap) && FiledAxioms(w, storeMap, loadMap, |storeMap|, m)
    ensures MemoryAxioms(w, m)
  {
    forall e: nat | w.Store(e) ensures m.value(e) == Byte(w.labels[e]) {
      var a := FiledAt(w, storeMap, loadMap, e);
      assert AddressAxioms(w, storeMap[a], loadMap[a], m);
      assert e in storeMap[a];
    }
    forall e: nat, f: nat | w.Store(e) && w.Store(f) && w.Shared(e, f) && e < f ensures m.order(e, f) || m.order(f, e) {
      var a := FiledAt(w, storeMap, loadMap, e);
      assert AddressAxioms(w, storeMap[a], loadMap[a], m);
      assert e in storeMap[a] && f in storeMap[a] && TotalAfter(e, storeMap[a], m);
    }
    forall l: nat | w.Load(l) ensures ReadAxioms(w, l, m) {
      var a := FiledAt(w, storeMap, loadMap, l);
      assert AddressAxioms(w, storeMap[a], loadMap[a], m);
      LoadAxiomsMeaning(w, storeMap[a], l, m);
    }
  }

  lemma MemoryToFiled(w: Memory, storeMap: seq<Events>, loadMap: seq<Events>, m: Model)
    requires w.Valid() && Complete(w, storeMap, loadMap) && MemoryAxioms(w, m)
    ensures FiledAxioms(w, storeMap, loadMap, |storeMap|, m)
  {
    forall a: nat | a < |storeMap| ensures AddressAxioms(w, storeMap[a], loadMap[a], m) {
      assert ListsStores(w.labels, |w.labels|, a, storeMap[a]);
      assert ListsLoads(w.labels, |w.labels|, a, loadMap[a]);
      forall e | e in storeMap[a] ensures TotalAfter(e, storeMap[a], m) {
        forall f | f in storeMap[a] && e < f ensures m.order(e, f) || m.order(f, e) {
          assert w.Store(e) && w.Store(f) && w.Shared(e, f);
        }
      }
      forall l | l in loadMap[a] ensures LoadAxioms(w, storeMap[a], l, m) {
        assert w.Load(l);
        LoadAxiomsMeaning(w, storeMap[a], l, m);
      }
      assert Written(w.labels, storeMap[a], m) by {
        forall e | e in storeMap[a] ensures m.value(e) == Byte(w.labels[e]) { assert w.Store(e); }
      }
    }
  }

  /** Encodes the axioms, or finds that no model can meet them. */
  method EncodeReleaseAcquire(w: Memory, maxLabel: Label, conjuncts0: seq<Constraint>)
    returns (unsat: bool, conjuncts: seq<Constraint>)
    requires w.Valid() && MaxLabel(w.labels, maxLabel)
    ensures unsat ==> forall m :: !MemoryAxioms(w, m)
    ensures !unsat ==> forall m :: AllHold(conjuncts, m) <==> AllHold(conjuncts0, m) && MemoryAxioms(w, m)
  {
    var maxAddress, storeMap, loadMap := StoreLoadFilter(w.labels, maxLabel);
    var ax;
    unsat, ax := EncodeAddresses(w, storeMap, loadMap);
    conjuncts := conjuncts0;
    forall m ensures FiledAxioms(w, storeMap, loadMap, |storeMap|, m) <==> MemoryAxioms(w, m) {
      if MemoryAxioms(w, m) {
        MemoryToFiled(w, storeMap, loadMap, m);
      }
      if FiledAxioms(w, storeMap, loadMap, |storeMap|, m) {
        FiledToMemory(w, storeMap, loadMap, m);
      }
    }
    if unsat {
      return;
    }
    conjuncts := PushAll(conjuncts, ax.allRf);
    conjuncts := PushAll(conjuncts, ax.orderSw);
    conjuncts := PushAll(conjuncts, ax.mo);
    conjuncts := PushAll(conjuncts, ax.orderFr);
    conjuncts := PushAll(conjuncts, ax.values);
  }

  /** One conjunction for all of `cs`, if there are any. */
  method PushAll(conjuncts0: seq<Constraint>, cs: seq<Constraint>) returns (conjuncts: seq<Constraint>)
    ensures forall m :: AllHold(conjuncts, m) <==> AllHold(conjuncts0, m) && AllHold(cs, m)
  {
    conjuncts := conjuncts0;
    if cs != [] {
      conjuncts := Push(conjuncts, Conjunction(cs));
    }
  }
}
