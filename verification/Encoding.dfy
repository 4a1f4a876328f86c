/** The encoder: loops over the events of a trace that add constraints to a solver.
    Each method is proved to assert exactly what the predicates of module Events
    say, for every assignment. */
module Encoding {
  import opened Events

  // ---- Constraints on one group of events ----------------------------------------

  const TRUE_LITERAL := Fact(d => true)
  const FALSE_LITERAL := Fact(d => false)

  function Guard(e: Event): Constraint { Fact(e.guard) }
  function EqualTerms(e: Event, f: Event): Constraint { Fact((d: Data) => e.term(d) == f.term(d)) }
  function EqualOffsets(e: Event, f: Event): Constraint { Fact((d: Data) => e.offset(d) == f.offset(d)) }
  function Earlier(e: Event, f: Event): Constraint { Before(TimeOf(e.id), TimeOf(f.id)) }
  function IsZero(e: Event): Constraint { Fact((d: Data) => e.term(d) == 0) }

  // connectives with their meaning at hand
  function Both(c: Constraint, d: Constraint): (r: Constraint)
    ensures forall m: Model :: Holds(r, m) <==> Holds(c, m) && Holds(d, m)
  {
    And(c, d)
  }

  function Either(c: Constraint, d: Constraint): (r: Constraint)
    ensures forall m: Model :: Holds(r, m) <==> Holds(c, m) || Holds(d, m)
  {
    Or(c, d)
  }

  function IfThen(c: Constraint, d: Constraint): (r: Constraint)
    ensures forall m: Model :: Holds(r, m) <==> (Holds(c, m) ==> Holds(d, m))
  {
    Implies(c, d)
  }

  lemma HasSourceLast(flow: Flow, es: seq<Event>, target: Event)
    requires es != []
    ensures forall m: Model :: HasSource(flow, es, target, m) <==>
      m.Flows(flow, es[|es| - 1], target) || HasSource(flow, es[..|es| - 1], target, m)
  {
    forall m: Model ensures HasSource(flow, es, target, m) <==>
      m.Flows(flow, es[|es| - 1], target) || HasSource(flow, es[..|es| - 1], target, m)
    {
      if HasSource(flow, es, target, m) {
        var e :| e in es && m.Flows(flow, e, target);
        assert e in es[..|es| - 1] || e == es[|es| - 1];
      }
      if HasSource(flow, es[..|es| - 1], target, m) {
        var e :| e in es[..|es| - 1] && m.Flows(flow, e, target);
        assert e in es;
      }
    }
  }

  /** `flow` has some source among `es`, latest event first. */
  function AnyFlow(flow: Flow, es: seq<Event>, target: Event): (c: Constraint)
    ensures forall m: Model :: Holds(c, m) <==> HasSource(flow, es, target, m)
  {
    if es == [] then FALSE_LITERAL
    else
      var front, last := es[..|es| - 1], es[|es| - 1];
      HasSourceLast(flow, es, target);
      Either(FlowsTo(flow, last.id, target.id), AnyFlow(flow, front, target))
  }

  /** `source` has some target among `es`, earliest event first. */
  function AnyTarget(flow: Flow, source: Event, es: seq<Event>): (c: Constraint)
    ensures forall m: Model :: Holds(c, m) <==> HasTarget(flow, source, es, m)
  {
    if es == [] then FALSE_LITERAL
    else
      var front, last := es[..|es| - 1], es[|es| - 1];
      HasTargetLast(flow, source, es);
      Either(AnyTarget(flow, source, front), FlowsTo(flow, source.id, last.id))
  }

  lemma HasTargetLast(flow: Flow, source: Event, es: seq<Event>)
    requires es != []
    ensures forall m: Model :: HasTarget(flow, source, es, m) <==>
      m.Flows(flow, source, es[|es| - 1]) || HasTarget(flow, source, es[..|es| - 1], m)
  {
    forall m: Model ensures HasTarget(flow, source, es, m) <==>
      m.Flows(flow, source, es[|es| - 1]) || HasTarget(flow, source, es[..|es| - 1], m)
    {
      if HasTarget(flow, source, es, m) {
        var e :| e in es && m.Flows(flow, source, e);
        assert e in es[..|es| - 1] || e == es[|es| - 1];
      }
      if HasTarget(flow, source, es[..|es| - 1], m) {
        var e :| e in es[..|es| - 1] && m.Flows(flow, source, e);
        assert e in es;
      }
    }
  }

  /** A conjunction accumulated over a list, one conjunct per event. */
  function Fold(c0: Constraint, es: seq<Event>, f: Event -> Constraint): (c: Constraint)
    ensures forall m: Model :: Holds(c, m) <==> Holds(c0, m) && forall e :: e in es ==> Holds(f(e), m)
  {
    if es == [] then c0
    else
      var front, last := es[..|es| - 1], es[|es| - 1];
      assert es == front + [last];
      Both(Fold(c0, front, f), f(last))
  }

  /** The two constraints on a write and a read in the quadratic encoding. */
  function QuadraticPair(w: Event, r: Event): (c: Constraint)
    ensures forall m: Model :: Holds(c, m) <==> ReadsSupFrom(r, w, m)
  {
    Both(FlowPair(w, r), SupPair(w, r))
  }

  /** If the write is the source, the supremum of the read is its time. */
  function FlowPair(w: Event, r: Event): (c: Constraint)
    ensures forall m: Model :: Holds(c, m) <==>
      (m.Flows(ReadFrom, w, r) ==>
         && m.Guard(r) && m.Guard(w) && m.Time(w) <= m.Time(r)
         && m.Value(w) == m.Value(r) && m.Sup(r) == m.Time(w))
  {
    var wrOrder := NotAfter(TimeOf(w.id), TimeOf(r.id));
    var wrSup := Same(SupOf(r.id), TimeOf(w.id));
    IfThen(FlowsTo(ReadFrom, w.id, r.id),
           Both(Both(Both(Both(Guard(r), Guard(w)), wrOrder), EqualTerms(w, r)), wrSup))
  }

  /** The supremum of the read is at or after an enabled write before the read. */
  function SupPair(w: Event, r: Event): (c: Constraint)
    ensures forall m: Model :: Holds(c, m) <==> (m.Time(w) <= m.Time(r) && m.Guard(w) ==> m.Time(w) <= m.Sup(r))
  {
    IfThen(Both(NotAfter(TimeOf(w.id), TimeOf(r.id)), Guard(w)), NotAfter(TimeOf(w.id), SupOf(r.id)))
  }

  /** The constraint on a write and a read in the cubic encoding. */
  function CubicPair(w: Event, r: Event): (c: Constraint)
    ensures forall m: Model :: Holds(c, m) <==>
      (m.Flows(ReadFrom, w, r) ==> m.Guard(r) && m.Guard(w) && m.Time(w) < m.Time(r) && m.Value(w) == m.Value(r))
  {
    IfThen(FlowsTo(ReadFrom, w.id, r.id),
           Both(Both(Both(Guard(r), Guard(w)), Earlier(w, r)), EqualTerms(w, r)))
  }

  function FromReadTerm(r: Event, w: Event, w': Event): (c: Constraint)
    ensures forall m: Model :: Holds(c, m) <==> FromReadPair(r, w, w', m)
  {
    IfThen(Both(Both(FlowsTo(ReadFrom, w.id, r.id), Guard(w')), Earlier(w, w')), Earlier(r, w'))
  }

  function PopTerm(push: Event, pop: Event): (c: Constraint)
    ensures forall m: Model :: Holds(c, m) <==>
      (m.Flows(PopFrom, push, pop) ==>
         m.Time(push) < m.Time(pop) && m.Guard(pop) && m.Guard(push) && m.Value(push) == m.Value(pop))
  {
    IfThen(FlowsTo(PopFrom, push.id, pop.id),
           Both(Both(Both(Earlier(push, pop), Guard(pop)), Guard(push)), EqualTerms(push, pop)))
  }

  /** If both pushes are popped, the later push is popped first. */
  function LifoTerm(push: Event, push': Event, pop: Event, pop': Event): (c: Constraint)
    ensures forall m: Model :: Holds(c, m) <==>
      (m.Flows(PopFrom, push, pop) && m.Flows(PopFrom, push', pop') && m.Time(push) < m.Time(push') < m.Time(pop) ==>
         m.Time(pop') < m.Time(pop))
  {
    IfThen(Both(Both(Both(FlowsTo(PopFrom, push.id, pop.id), FlowsTo(PopFrom, push'.id, pop'.id)),
                     Earlier(push, push')), Earlier(push', pop)),
           Earlier(pop', pop))
  }

  /** A later enabled push below the pop is popped at some time. */
  function LifoSomePop(push: Event, push': Event, pop: Event, orPp: Constraint): (c: Constraint)
    ensures forall m: Model :: Holds(c, m) <==>
      (m.Flows(PopFrom, push, pop) && m.Guard(push') && m.Time(push) < m.Time(push') < m.Time(pop) ==>
         Holds(orPp, m))
  {
    IfThen(Both(Both(Both(FlowsTo(PopFrom, push.id, pop.id), Guard(push')), Earlier(push, push')),
                Earlier(push', pop)), orPp)
  }

  function LoadTerm(s: Event, ld: Event): (c: Constraint)
    ensures forall m: Model :: Holds(c, m) <==>
      (m.Flows(LoadFrom, s, ld) ==>
         && m.Guard(s) && m.Guard(ld) && m.Time(s) < m.Time(ld)
         && m.Value(s) == m.Value(ld) && m.Offset(s) == m.Offset(ld))
  {
    IfThen(FlowsTo(LoadFrom, s.id, ld.id),
           Both(Both(Both(Both(Guard(s), Guard(ld)), Earlier(s, ld)), EqualTerms(s, ld)), EqualOffsets(s, ld)))
  }

  /** Part of the initial zero array axiom. */
  function BeforeStore(s: Event, ld: Event): (c: Constraint)
    ensures forall m: Model :: Holds(c, m) <==> (m.Offset(s) == m.Offset(ld) ==> m.Time(ld) < m.Time(s))
  {
    IfThen(EqualOffsets(ld, s), Earlier(ld, s))
  }

  function BeforeStores(ld: Event): Event -> Constraint { s => BeforeStore(s, ld) }
  function PopTerms(pop: Event): Event -> Constraint { push => PopTerm(push, pop) }
  function CubicPairs(r: Event): Event -> Constraint { w => CubicPair(w, r) }
  function LoadTerms(ld: Event): Event -> Constraint { s => LoadTerm(s, ld) }

  lemma LoadMeaning(andLdf0: Constraint, ld: Event, stores: seq<Event>)
    ensures forall m: Model :: Holds(Both(Fold(andLdf0, stores, LoadTerms(ld)), ZeroTerm(ld, stores)), m)
                               <==> Holds(andLdf0, m) && LoadsFrom(ld, stores, m)
  {
    var f, z := Fold(andLdf0, stores, LoadTerms(ld)), ZeroTerm(ld, stores);
    forall m: Model ensures Holds(Both(f, z), m) <==> Holds(andLdf0, m) && LoadsFrom(ld, stores, m) {
      FoldedLoads(andLdf0, ld, stores, m);
      assert Holds(Both(f, z), m) <==> Holds(f, m) && Holds(z, m);
      JoinLoads(Holds(f, m), Holds(z, m), Holds(andLdf0, m), ld, stores, m);
    }
  }

  ghost predicate SourcesFit(ld: Event, stores: seq<Event>, m: Model)
  {
    forall s :: s in stores && m.Flows(LoadFrom, s, ld) ==>
      && m.Guard(s) && m.Guard(ld) && m.Time(s) < m.Time(ld)
      && m.Value(s) == m.Value(ld) && m.Offset(s) == m.Offset(ld)
  }

  ghost predicate ZeroFits(ld: Event, stores: seq<Event>, m: Model)
  {
    !HasSource(LoadFrom, stores, ld, m) ==>
      && m.Guard(ld) && m.Value(ld) == 0
      && (forall s :: s in stores && m.Offset(s) == m.Offset(ld) ==> m.Time(ld) < m.Time(s))
  }

  lemma JoinLoads(f: bool, z: bool, c: bool, ld: Event, stores: seq<Event>, m: Model)
    requires f <==> c && SourcesFit(ld, stores, m)
    requires z <==> ZeroFits(ld, stores, m)
    ensures f && z <==> c && LoadsFrom(ld, stores, m)
  {
  }

  lemma FoldedLoads(andLdf0: Constraint, ld: Event, stores: seq<Event>, m: Model)
    ensures Holds(Fold(andLdf0, stores, LoadTerms(ld)), m) <==> Holds(andLdf0, m) && SourcesFit(ld, stores, m)
  {
    assert forall s :: s in stores ==> Holds(LoadTerms(ld)(s), m) == Holds(LoadTerm(s, ld), m);
  }

  lemma PopMeaning(andPf0: Constraint, pop: Event, pushes: seq<Event>)
    ensures forall m: Model ::
      Holds(Both(Fold(andPf0, pushes, PopTerms(pop)), AnyFlow(PopFrom, pushes, pop)), m) <==>
        Holds(andPf0, m) && PopsFrom(pop, pushes, m)
  {
    var f, s := Fold(andPf0, pushes, PopTerms(pop)), AnyFlow(PopFrom, pushes, pop);
    forall m: Model ensures Holds(Both(f, s), m) <==> Holds(andPf0, m) && PopsFrom(pop, pushes, m) {
      FoldedPops(andPf0, pop, pushes, m);
      assert Holds(Both(f, s), m) <==> Holds(f, m) && Holds(s, m);
      JoinPops(Holds(f, m), Holds(andPf0, m), pop, pushes, m);
    }
  }

  ghost predicate TakesFit(pop: Event, pushes: seq<Event>, m: Model)
  {
    forall push :: push in pushes && m.Flows(PopFrom, push, pop) ==>
      m.Time(push) < m.Time(pop) && m.Guard(pop) && m.Guard(push) && m.Value(push) == m.Value(pop)
  }

  lemma FoldedPops(andPf0: Constraint, pop: Event, pushes: seq<Event>, m: Model)
    ensures Holds(Fold(andPf0, pushes, PopTerms(pop)), m) <==> Holds(andPf0, m) && TakesFit(pop, pushes, m)
  {
    assert forall push :: push in pushes ==> Holds(PopTerms(pop)(push), m) == Holds(PopTerm(push, pop), m);
  }

  lemma JoinPops(f: bool, c: bool, pop: Event, pushes: seq<Event>, m: Model)
    requires f <==> c && TakesFit(pop, pushes, m)
    ensures f && HasSource(PopFrom, pushes, pop, m) <==> c && PopsFrom(pop, pushes, m)
  {
  }

  lemma CubicMeaning(andRf0: Constraint, r: Event, writes: seq<Event>)
    ensures forall m: Model ::
      Holds(Both(Fold(andRf0, writes, CubicPairs(r)), IfThen(Guard(r), AnyFlow(ReadFrom, writes, r))), m) <==>
        Holds(andRf0, m) && ReadsCubic(r, writes, m)
  {
    forall m: Model
      ensures Holds(Both(Fold(andRf0, writes, CubicPairs(r)), IfThen(Guard(r), AnyFlow(ReadFrom, writes, r))), m) <==>
        Holds(andRf0, m) && ReadsCubic(r, writes, m)
    {
      CubicMeaningIn(andRf0, r, writes, m);
    }
  }

  lemma CubicMeaningIn(andRf0: Constraint, r: Event, writes: seq<Event>, m: Model)
    ensures Holds(Both(Fold(andRf0, writes, CubicPairs(r)), IfThen(Guard(r), AnyFlow(ReadFrom, writes, r))), m) <==>
      Holds(andRf0, m) && ReadsCubic(r, writes, m)
  {
  }

  /** Without a store to load from, the load gets zero, before all stores to its offset. */
  function ZeroTerm(ld: Event, stores: seq<Event>): (c: Constraint)
    ensures forall m: Model :: Holds(c, m) <==> ZeroFits(ld, stores, m)
  {
    var andLds := Fold(TRUE_LITERAL, stores, BeforeStores(ld));
    var orLdf := AnyFlow(LoadFrom, stores, ld);
    assert forall m: Model :: Holds(Not(orLdf), m) <==> !HasSource(LoadFrom, stores, ld, m);
    IfThen(Not(orLdf), Both(Both(Guard(ld), andLds), IsZero(ld)))
  }

  function FromLoadTerm(ld: Event, s: Event, s': Event): (c: Constraint)
    ensures forall m: Model :: Holds(c, m) <==> FromLoadPair(ld, s, s', m)
  {
    IfThen(Both(Both(Both(FlowsTo(LoadFrom, s.id, ld.id), Earlier(s, s')), EqualOffsets(s, s')), Guard(s')),
           Earlier(ld, s'))
  }

  /** The first `n` events of a thread in program order. */
  function InOrder(c0: Constraint, t: seq<EventId>, n: nat): (c: Constraint)
    requires n <= |t|
    ensures forall m: Model :: Holds(c, m) <==>
      Holds(c0, m) && forall k :: 0 <= k < n - 1 ==> m.time(t[k]) < m.time(t[k + 1])
  {
    if n <= 1 then c0
    else Both(InOrder(c0, t, n - 1), Before(TimeOf(t[n - 2]), TimeOf(t[n - 1])))
  }

  // ---- The encoder -----------------------------------------------------------------

  lemma AppendHolds(cs: seq<Constraint>, c: Constraint, m: Model)
    ensures AllHold(cs + [c], m) <==> AllHold(cs, m) && Holds(c, m)
  {
    if AllHold(cs + [c], m) {
      forall i | 0 <= i < |cs| ensures Holds(cs[i], m) { assert (cs + [c])[i] == cs[i]; }
      assert (cs + [c])[|cs|] == c;
    }
  }

  lemma TakeOneMore(es: seq<Event>, i: nat)
    requires i < |es|
    ensures es[..i + 1] == es[..i] + [es[i]] && es[..i + 1][..i] == es[..i]
    ensures forall e :: e in es[..i + 1] <==> e in es[..i] || e == es[i]
  {
  }

  class Encoder {
    var solver: seq<Constraint>
    var timed: set<EventId>
    var supTimed: set<EventId>
    // the solver contents apart from the lower bounds on time symbols
    ghost var facts: seq<Constraint>

    /** Every model of the solver puts each time symbol in use after the epoch, and the
        solver demands nothing else beyond `facts`. */
    ghost predicate Valid()
      reads this
    {
      forall m: Model :: AllHold(solver, m) <==> AllHold(facts, m) && AfterEpoch(m)
    }

    ghost predicate AfterEpoch(m: Model)
      reads this
    {
      && (forall id :: id in timed ==> m.time(id) > 0)
      && (forall id :: id in supTimed ==> m.sup(id) > 0)
    }

    constructor ()
      ensures Valid() && facts == []
    {
      solver, facts, timed, supTimed := [], [], {}, {};
    }

    /** The time symbol of an event; its first use bounds it from below. */
    method Time(id: EventId) returns (t: TimePoint)
      requires Valid()
      modifies this`solver, this`timed
      ensures Valid() && timed == old(timed) + {id}
      ensures t == TimeOf(id)
    {
      t := TimeOf(id);
      if id !in timed {
        forall m: Model ensures AllHold(solver + [Before(Epoch, t)], m) <==> AllHold(solver, m) && m.time(id) > 0 {
          AppendHolds(solver, Before(Epoch, t), m);
        }
        solver, timed := solver + [Before(Epoch, t)], timed + {id};
      }
    }

    /** The time symbols of three events. */
    method ThreeTimes(e: Event, f: Event, g: Event)
      requires Valid()
      modifies this`solver, this`timed
      ensures Valid() && timed == old(timed) + {e.id, f.id, g.id}
    {
      var _ := Time(e.id);
      var _ := Time(f.id);
      var _ := Time(g.id);
    }

    method SupTime(e: Event) returns (t: TimePoint)
      requires Valid()
      modifies this`solver, this`supTimed
      ensures Valid() && supTimed == old(supTimed) + {e.id}
      ensures t == SupOf(e.id)
    {
      t := SupOf(e.id);
      if e.id !in supTimed {
        forall m: Model ensures AllHold(solver + [Before(Epoch, t)], m) <==> AllHold(solver, m) && m.sup(e.id) > 0 {
          AppendHolds(solver, Before(Epoch, t), m);
        }
        solver, supTimed := solver + [Before(Epoch, t)], supTimed + {e.id};
      }
    }

    method UnsafeAdd(c: Constraint)
      requires Valid()
      modifies this`solver, this`facts
      ensures Valid() && facts == old(facts) + [c]
    {
      forall m: Model
        ensures AllHold(solver + [c], m) <==> AllHold(solver, m) && Holds(c, m)
        ensures AllHold(facts + [c], m) <==> AllHold(facts, m) && Holds(c, m)
      {
        AppendHolds(solver, c, m);
        AppendHolds(facts, c, m);
      }
      solver, facts := solver + [c], facts + [c];
    }

    /** Quadratic encoding, one read: conjuncts for `r` are added to `andRf0`. */
    method EncodeRead(andRf0: Constraint, r: Event, writes: seq<Event>) returns (andRf: Constraint)
      requires Valid()
      modifies this`solver, this`timed, this`supTimed
      ensures Valid()
      ensures forall m: Model :: Holds(andRf, m) <==> Holds(andRf0, m) && ReadsSup(r, writes, m)
    {
      var _ := Time(r.id);
      var _ := SupTime(r);
      andRf := andRf0;
      var orRf := FALSE_LITERAL;
      ghost var pair := w => QuadraticPair(w, r);
      for i := 0 to |writes|
        invariant Valid()
        invariant orRf == AnyFlow(ReadFrom, writes[..i], r)
        invariant andRf == Fold(andRf0, writes[..i], pair)
      {
        var w := writes[i];
        var _ := Time(w.id);
        TakeOneMore(writes, i);
        orRf := Either(FlowsTo(ReadFrom, w.id, r.id), orRf);
        andRf := Both(andRf, QuadraticPair(w, r));
      }
      assert writes[..|writes|] == writes;
      andRf := Both(andRf, IfThen(Guard(r), orRf));
    }
  
    /** Quadratic encoding, one address. */
    method EncodeReads(andRf0: Constraint, a: EventKinds) returns (andRf: Constraint)
      requires Valid()
      modifies this`solver, this`timed, this`supTimed
      ensures Valid()
      ensures forall m: Model :: Holds(andRf, m) <==> Holds(andRf0, m) && SupReads(a, m)
    {
      andRf := andRf0;
      for i := 0 to |a.readEvents|
        invariant Valid()
        invariant forall m: Model :: Holds(andRf, m) <==>
          Holds(andRf0, m) && forall k :: 0 <= k < i ==> ReadsSup(a.readEvents[k], a.writeEvents, m)
      {
        andRf := EncodeRead(andRf, a.readEvents[i], a.writeEvents);
      }
    }

    /** Unpublished quadratic-size encoding. */
    method EncodeReadFrom(index: seq<EventKinds>)
      requires Valid()
      modifies this`solver, this`facts, this`timed, this`supTimed
      ensures Valid()
      ensures forall m: Model :: AllHold(facts, m) <==>
        AllHold(old(facts), m) && forall a :: a in index ==> SupReads(a, m)
    {
      var andRf := TRUE_LITERAL;
      for i := 0 to |index|
        invariant Valid() && facts == old(facts)
        invariant forall m: Model :: Holds(andRf, m) <==> forall k :: 0 <= k < i ==> SupReads(index[k], m)
      {
        andRf := EncodeReads(andRf, index[i]);
      }
      UnsafeAdd(andRf);
      forall m: Model ensures AllHold(facts, m) <==> AllHold(old(facts), m) && Holds(andRf, m) {
        AppendHolds(old(facts), andRf, m);
      }
    }

    /** Cubic read-from encoding, one read. */
    method EncodeReadCubic(andRf0: Constraint, r: Event, writes: seq<Event>) returns (andRf: Constraint)
      requires Valid()
      modifies this`solver, this`timed
      ensures Valid()
      ensures forall m: Model :: Holds(andRf, m) <==> Holds(andRf0, m) && ReadsCubic(r, writes, m)
    {
      var _ := Time(r.id);
      andRf := andRf0;
      var orRf := FALSE_LITERAL;
      for i := 0 to |writes|
        invariant Valid()
        invariant orRf == AnyFlow(ReadFrom, writes[..i], r)
        invariant andRf == Fold(andRf0, writes[..i], CubicPairs(r))
      {
        var w := writes[i];
        var _ := Time(w.id);
        TakeOneMore(writes, i);
        orRf := Either(FlowsTo(ReadFrom, w.id, r.id), orRf);
        andRf := Both(andRf, CubicPair(w, r));
      }
      assert writes[..|writes|] == writes;
      CubicMeaning(andRf0, r, writes);
      andRf := Both(andRf, IfThen(Guard(r), orRf));
    }

    /** Cubic read-from encoding, one address. */
    method EncodeReadsCubic(andRf0: Constraint, a: EventKinds) returns (andRf: Constraint)
      requires Valid()
      modifies this`solver, this`timed
      ensures Valid()
      ensures forall m: Model :: Holds(andRf, m) <==> Holds(andRf0, m) && CubicReads(a, m)
    {
      andRf := andRf0;
      for i := 0 to |a.readEvents|
        invariant Valid()
        invariant forall m: Model :: Holds(andRf, m) <==>
          Holds(andRf0, m) && forall k :: 0 <= k < i ==> ReadsCubic(a.readEvents[k], a.writeEvents, m)
      {
        andRf := EncodeReadCubic(andRf, a.readEvents[i], a.writeEvents);
      }
    }

    /** The published cubic-size encoding. */
    method EncodeReadFromCubic(index: seq<EventKinds>)
      requires Valid()
      modifies this`solver, this`facts, this`timed
      ensures Valid()
      ensures forall m: Model :: AllHold(facts, m) <==>
        AllHold(old(facts), m) && forall a :: a in index ==> CubicReads(a, m)
    {
      var andRf := TRUE_LITERAL;
      for i := 0 to |index|
        invariant Valid() && facts == old(facts)
        invariant forall m: Model :: Holds(andRf, m) <==> forall k :: 0 <= k < i ==> CubicReads(index[k], m)
      {
        andRf := EncodeReadsCubic(andRf, index[i]);
      }
      UnsafeAdd(andRf);
      forall m: Model ensures AllHold(facts, m) <==> AllHold(old(facts), m) && Holds(andRf, m) {
        AppendHolds(old(facts), andRf, m);
      }
    }

    method EncodeFromReadPair(andFr0: Constraint, r: Event, w: Event, w': Event) returns (andFr: Constraint)
      requires Valid()
      modifies this`solver, this`timed
      ensures Valid()
      ensures forall m: Model :: Holds(andFr, m) <==> Holds(andFr0, m) && FromReadPair(r, w, w', m)
    {
      ThreeTimes(w', w, r);
      andFr := Both(andFr0, FromReadTerm(r, w, w'));
    }

    /** From-read, one read and one write against all others. */
    method EncodeFromReadWrite(andFr0: Constraint, r: Event, writes: seq<Event>, j: nat) returns (andFr: Constraint)
      requires Valid() && j < |writes|
      modifies this`solver, this`timed
      ensures Valid()
      ensures forall m: Model :: Holds(andFr, m) <==>
        Holds(andFr0, m) && forall k :: 0 <= k < |writes| && k != j ==> FromReadPair(r, writes[j], writes[k], m)
    {
      andFr := andFr0;
      for i := 0 to |writes|
        invariant Valid()
        invariant forall m: Model :: Holds(andFr, m) <==>
          Holds(andFr0, m) && forall k :: 0 <= k < i && k != j ==> FromReadPair(r, writes[j], writes[k], m)
      {
        if i == j { continue; }
        andFr := EncodeFromReadPair(andFr, r, writes[j], writes[i]);
      }
    }

    /** From-read, one read. */
    method EncodeFromReadRead(andFr0: Constraint, r: Event, writes: seq<Event>) returns (andFr: Constraint)
      requires Valid()
      modifies this`solver, this`timed
      ensures Valid()
      ensures forall m: Model :: Holds(andFr, m) <==> Holds(andFr0, m) && FromRead(r, writes, m)
    {
      andFr := andFr0;
      for i := 0 to |writes|
        invariant Valid()
        invariant forall m: Model :: Holds(andFr, m) <==>
          Holds(andFr0, m) && forall j, k :: 0 <= j < i && 0 <= k < |writes| && j != k ==>
            FromReadPair(r, writes[j], writes[k], m)
      {
        andFr := EncodeFromReadWrite(andFr, r, writes, i);
      }
    }

    /** From-read, one address. */
    method EncodeFromReads(andFr0: Constraint, a: EventKinds) returns (andFr: Constraint)
      requires Valid()
      modifies this`solver, this`timed
      ensures Valid()
      ensures forall m: Model :: Holds(andFr, m) <==> Holds(andFr0, m) && FromReads(a, m)
    {
      andFr := andFr0;
      for i := 0 to |a.readEvents|
        invariant Valid()
        invariant forall m: Model :: Holds(andFr, m) <==>
          Holds(andFr0, m) && forall k :: 0 <= k < i ==> FromRead(a.readEvents[k], a.writeEvents, m)
      {
        andFr := EncodeFromReadRead(andFr, a.readEvents[i], a.writeEvents);
      }
    }

    /** The from-read axiom of the cubic encoding. */
    method EncodeFromRead(index: seq<EventKinds>)
      requires Valid()
      modifies this`solver, this`facts, this`timed
      ensures Valid()
      ensures forall m: Model :: AllHold(facts, m) <==>
        AllHold(old(facts), m) && forall a :: a in index ==> FromReads(a, m)
    {
      var andFr := TRUE_LITERAL;
      for i := 0 to |index|
        invariant Valid() && facts == old(facts)
        invariant forall m: Model :: Holds(andFr, m) <==> forall k :: 0 <= k < i ==> FromReads(index[k], m)
      {
        andFr := EncodeFromReads(andFr, index[i]);
      }
      UnsafeAdd(andFr);
      forall m: Model ensures AllHold(facts, m) <==> AllHold(old(facts), m) && Holds(andFr, m) {
        AppendHolds(old(facts), andFr, m);
      }
    }

    /** The time symbols of a list of events. */
    method TimesOf(es: seq<Event>) returns (ids: seq<EventId>)
      requires Valid()
      modifies this`solver, this`timed
      ensures Valid() && ids == Ids(es)
    {
      ids := [];
      for i := 0 to |es|
        invariant Valid() && ids == Ids(es)[..i]
      {
        var _ := Time(es[i].id);
        ids := ids + [es[i].id];
      }
    }

    /** All writes to one address happen at different times. */
    method EncodeWriteSerialization(index: seq<EventKinds>)
      requires Valid()
      modifies this`solver, this`facts, this`timed
      ensures Valid()
      ensures forall m: Model :: AllHold(facts, m) <==>
        AllHold(old(facts), m) && forall a :: a in index ==> Serialized(a.writeEvents, m)
    {
      var andWs := TRUE_LITERAL;
      for i := 0 to |index|
        invariant Valid() && facts == old(facts)
        invariant forall m: Model :: Holds(andWs, m) <==> forall k :: 0 <= k < i ==> Serialized(index[k].writeEvents, m)
      {
        if |index[i].writeEvents| < 2 { continue; }
        var ids := TimesOf(index[i].writeEvents);
        andWs := Both(andWs, DistinctTimes(ids));
      }
      UnsafeAdd(andWs);
      forall m: Model ensures AllHold(facts, m) <==> AllHold(old(facts), m) && Holds(andWs, m) {
        AppendHolds(old(facts), andWs, m);
      }
    }

    /** Program order within each thread. */
    method EncodeThreadOrder(threads: seq<seq<EventId>>)
      requires Valid()
      modifies this`solver, this`facts, this`timed
      ensures Valid()
      ensures forall m: Model :: AllHold(facts, m) <==> AllHold(old(facts), m) && AllThreadOrder(threads, m)
    {
      var order := TRUE_LITERAL;
      for i := 0 to |threads|
        invariant Valid() && facts == old(facts)
        invariant forall m: Model :: Holds(order, m) <==> forall k :: 0 <= k < i ==> ThreadOrder(threads[k], m)
      {
        if |threads[i]| < 2 { continue; }
        order := EncodeThread(order, threads[i]);
      }
      UnsafeAdd(order);
      forall m: Model ensures AllHold(facts, m) <==> AllHold(old(facts), m) && Holds(order, m) {
        AppendHolds(old(facts), order, m);
      }
    }

    method EncodeThread(order0: Constraint, t: seq<EventId>) returns (order: Constraint)
      requires Valid() && |t| >= 2
      modifies this`solver, this`timed
      ensures Valid()
      ensures forall m: Model :: Holds(order, m) <==> Holds(order0, m) && ThreadOrder(t, m)
    {
      order := order0;
      var e, i := t[0], 1;
      while i < |t|
        invariant 1 <= i <= |t| && e == t[i - 1] && Valid()
        invariant order == InOrder(order0, t, i)
      {
        var eTime := Time(e);
        var nextTime := Time(t[i]);
        order := Both(order, Before(eTime, nextTime));
        e, i := t[i], i + 1;
      }
    }

    method EncodeMemoryConcurrency(index: seq<EventKinds>)
      requires Valid()
      modifies this
      ensures Valid()
      ensures forall m: Model :: AllHold(facts, m) <==> AllHold(old(facts), m) && QuadraticMemory(index, m)
    {
      EncodeReadFrom(index);
      EncodeWriteSerialization(index);
    }

    /** The same in a build without `_SUP_READ_FROM_`. */
    method EncodeMemoryConcurrencyCubic(index: seq<EventKinds>)
      requires Valid()
      modifies this
      ensures Valid()
      ensures forall m: Model :: AllHold(facts, m) <==> AllHold(old(facts), m) && CubicMemory(index, m)
    {
      EncodeReadFromCubic(index);
      EncodeFromRead(index);
      EncodeWriteSerialization(index);
    }

    /** Pop-from, one pop. */
    method EncodePop(andPf0: Constraint, pop: Event, pushes: seq<Event>) returns (andPf: Constraint)
      requires Valid()
      modifies this`solver, this`timed
      ensures Valid()
      ensures forall m: Model :: Holds(andPf, m) <==> Holds(andPf0, m) && PopsFrom(pop, pushes, m)
    {
      andPf := andPf0;
      var orPf := FALSE_LITERAL;
      for i := 0 to |pushes|
        invariant Valid()
        invariant orPf == AnyFlow(PopFrom, pushes[..i], pop)
        invariant andPf == Fold(andPf0, pushes[..i], PopTerms(pop))
      {
        var push := pushes[i];
        TakeOneMore(pushes, i);
        var _ := Time(push.id);
        var _ := Time(pop.id);
        orPf := Either(FlowsTo(PopFrom, push.id, pop.id), orPf);
        andPf := Both(andPf, PopTerm(push, pop));
      }
      assert pushes[..|pushes|] == pushes;
      PopMeaning(andPf0, pop, pushes);
      andPf := Both(andPf, orPf);
    }

    /** Pop-from, one stack. */
    method EncodePops(andPf0: Constraint, a: EventKinds) returns (andPf: Constraint)
      requires Valid()
      modifies this`solver, this`timed
      ensures Valid()
      ensures forall m: Model :: Holds(andPf, m) <==> Holds(andPf0, m) && AllPopsFrom(a, m)
    {
      andPf := andPf0;
      for i := 0 to |a.pops|
        invariant Valid()
        invariant forall m: Model :: Holds(andPf, m) <==>
          Holds(andPf0, m) && forall k :: 0 <= k < i ==> PopsFrom(a.pops[k], a.pushes, m)
      {
        andPf := EncodePop(andPf, a.pops[i], a.pushes);
      }
    }

    /** Every pop takes some enabled earlier push. */
    method EncodePopFrom(index: seq<EventKinds>)
      requires Valid()
      modifies this`solver, this`facts, this`timed
      ensures Valid()
      ensures forall m: Model :: AllHold(facts, m) <==>
        AllHold(old(facts), m) && forall a :: a in index ==> AllPopsFrom(a, m)
    {
      var andPf := TRUE_LITERAL;
      for i := 0 to |index|
        invariant Valid() && facts == old(facts)
        invariant forall m: Model :: Holds(andPf, m) <==> forall k :: 0 <= k < i ==> AllPopsFrom(index[k], m)
      {
        andPf := EncodePops(andPf, index[i]);
      }
      UnsafeAdd(andPf);
      forall m: Model ensures AllHold(facts, m) <==> AllHold(old(facts), m) && Holds(andPf, m) {
        AppendHolds(old(facts), andPf, m);
      }
    }

    /** No two pops take the same push. */
    method EncodePopFromInjectivity(index: seq<EventKinds>)
      requires Valid()
      modifies this`solver, this`facts
      ensures Valid()
      ensures forall m: Model :: AllHold(facts, m) <==>
        AllHold(old(facts), m) && forall a :: a in index ==> PopsInjective(a.pops, m)
    {
      var andExcl := TRUE_LITERAL;
      for i := 0 to |index|
        invariant Valid() && facts == old(facts)
        invariant forall m: Model :: Holds(andExcl, m) <==> forall k :: 0 <= k < i ==> PopsInjective(index[k].pops, m)
      {
        if |index[i].pops| < 2 { continue; }
        andExcl := Both(andExcl, DistinctSources(PopFrom, Ids(index[i].pops)));
      }
      UnsafeAdd(andExcl);
      forall m: Model ensures AllHold(facts, m) <==> AllHold(old(facts), m) && Holds(andExcl, m) {
        AppendHolds(old(facts), andExcl, m);
      }
    }

    /** LIFO order, two pushes and one pop. */
    method EncodeLifoPop(andStack0: Constraint, push: Event, push': Event, pop: Event, pops: seq<Event>)
      returns (andStack: Constraint)
      requires Valid()
      modifies this`solver, this`timed
      ensures Valid()
      ensures forall m: Model :: Holds(andStack, m) <==> Holds(andStack0, m) && LifoOrder(push, push', pop, pops, m)
    {
      var _ := Time(push.id);
      var _ := Time(push'.id);
      var _ := Time(pop.id);
      andStack := andStack0;
      var orPp := FALSE_LITERAL;
      ghost var pair := pop' => LifoTerm(push, push', pop, pop');
      for i := 0 to |pops|
        invariant Valid()
        invariant orPp == AnyTarget(PopFrom, push', pops[..i])
        invariant andStack == Fold(andStack0, pops[..i], pair)
      {
        var pop' := pops[i];
        TakeOneMore(pops, i);
        var _ := Time(pop'.id);
        orPp := Either(orPp, FlowsTo(PopFrom, push'.id, pop'.id));
        andStack := Both(andStack, LifoTerm(push, push', pop, pop'));
      }
      assert pops[..|pops|] == pops;
      andStack := Both(andStack, LifoSomePop(push, push', pop, orPp));
    }

    /** LIFO order, two pushes. */
    method EncodeLifoPair(andStack0: Constraint, push: Event, push': Event, pops: seq<Event>)
      returns (andStack: Constraint)
      requires Valid()
      modifies this`solver, this`timed
      ensures Valid()
      ensures forall m: Model :: Holds(andStack, m) <==>
        Holds(andStack0, m) && forall pop :: pop in pops ==> LifoOrder(push, push', pop, pops, m)
    {
      andStack := andStack0;
      for i := 0 to |pops|
        invariant Valid()
        invariant forall m: Model :: Holds(andStack, m) <==>
          Holds(andStack0, m) && forall k :: 0 <= k < i ==> LifoOrder(push, push', pops[k], pops, m)
      {
        andStack := EncodeLifoPop(andStack, push, push', pops[i], pops);
      }
    }

    /** LIFO order, one push. */
    method EncodeLifoPush(andStack0: Constraint, push: Event, a: EventKinds) returns (andStack: Constraint)
      requires Valid()
      modifies this`solver, this`timed
      ensures Valid()
      ensures forall m: Model :: Holds(andStack, m) <==>
        Holds(andStack0, m) && forall push', pop :: push' in a.pushes && pop in a.pops ==>
          LifoOrder(push, push', pop, a.pops, m)
    {
      andStack := andStack0;
      for i := 0 to |a.pushes|
        invariant Valid()
        invariant forall m: Model :: Holds(andStack, m) <==>
          Holds(andStack0, m) && forall k, pop :: 0 <= k < i && pop in a.pops ==>
            LifoOrder(push, a.pushes[k], pop, a.pops, m)
      {
        andStack := EncodeLifoPair(andStack, push, a.pushes[i], a.pops);
      }
    }

    /** LIFO order, one stack. */
    method EncodeLifo(andStack0: Constraint, a: EventKinds) returns (andStack: Constraint)
      requires Valid()
      modifies this`solver, this`timed
      ensures Valid()
      ensures forall m: Model :: Holds(andStack, m) <==> Holds(andStack0, m) && AllLifo(a, m)
    {
      andStack := andStack0;
      for i := 0 to |a.pushes|
        invariant Valid()
        invariant forall m: Model :: Holds(andStack, m) <==>
          Holds(andStack0, m) && forall k :: 0 <= k < i ==> forall push', pop :: push' in a.pushes && pop in a.pops ==>
            LifoOrder(a.pushes[k], push', pop, a.pops, m)
      {
        andStack := EncodeLifoPush(andStack, a.pushes[i], a);
      }
    }

    /** Later pushes are popped first. */
    method EncodeStackLifoOrder(index: seq<EventKinds>)
      requires Valid()
      modifies this`solver, this`facts, this`timed
      ensures Valid()
      ensures forall m: Model :: AllHold(facts, m) <==>
        AllHold(old(facts), m) && forall a :: a in index ==> AllLifo(a, m)
    {
      var andStack := TRUE_LITERAL;
      for i := 0 to |index|
        invariant Valid() && facts == old(facts)
        invariant forall m: Model :: Holds(andStack, m) <==> forall k :: 0 <= k < i ==> AllLifo(index[k], m)
      {
        andStack := EncodeLifo(andStack, index[i]);
      }
      UnsafeAdd(andStack);
      forall m: Model ensures AllHold(facts, m) <==> AllHold(old(facts), m) && Holds(andStack, m) {
        AppendHolds(old(facts), andStack, m);
      }
    }

    method EncodeStackApi(index: seq<EventKinds>)
      requires Valid()
      modifies this
      ensures Valid()
      ensures forall m: Model :: AllHold(facts, m) <==> AllHold(old(facts), m) && StackApi(index, m)
    {
      EncodePopFrom(index);
      EncodePopFromInjectivity(index);
      EncodeStackLifoOrder(index);
    }

    /** Load-from, one load. */
    method EncodeLoad(andLdf0: Constraint, ld: Event, stores: seq<Event>) returns (andLdf: Constraint)
      requires Valid()
      modifies this`solver, this`timed
      ensures Valid()
      ensures forall m: Model :: Holds(andLdf, m) <==> Holds(andLdf0, m) && LoadsFrom(ld, stores, m)
    {
      var _ := Time(ld.id);
      andLdf := andLdf0;
      var andLds, orLdf := TRUE_LITERAL, FALSE_LITERAL;
      for i := 0 to |stores|
        invariant Valid()
        invariant orLdf == AnyFlow(LoadFrom, stores[..i], ld)
        invariant andLds == Fold(TRUE_LITERAL, stores[..i], BeforeStores(ld))
        invariant andLdf == Fold(andLdf0, stores[..i], LoadTerms(ld))
      {
        var s := stores[i];
        TakeOneMore(stores, i);
        var _ := Time(s.id);
        andLds := Both(andLds, BeforeStore(s, ld));
        orLdf := Either(FlowsTo(LoadFrom, s.id, ld.id), orLdf);
        andLdf := Both(andLdf, LoadTerm(s, ld));
      }
      assert stores[..|stores|] == stores;
      andLdf := Both(andLdf, IfThen(Not(orLdf), Both(Both(Guard(ld), andLds), IsZero(ld))));
      assert andLdf == Both(Fold(andLdf0, stores, LoadTerms(ld)), ZeroTerm(ld, stores));
      LoadMeaning(andLdf0, ld, stores);
    }

    /** Load-from, one array. */
    method EncodeLoads(andLdf0: Constraint, a: EventKinds) returns (andLdf: Constraint)
      requires Valid()
      modifies this`solver, this`timed
      ensures Valid()
      ensures forall m: Model :: Holds(andLdf, m) <==> Holds(andLdf0, m) && AllLoadsFrom(a, m)
    {
      andLdf := andLdf0;
      for i := 0 to |a.loads|
        invariant Valid()
        invariant forall m: Model :: Holds(andLdf, m) <==>
          Holds(andLdf0, m) && forall k :: 0 <= k < i ==> LoadsFrom(a.loads[k], a.stores, m)
      {
        andLdf := EncodeLoad(andLdf, a.loads[i], a.stores);
      }
    }

    /** Like read-from, with equal offsets; loads from the initial array give zero. */
    method EncodeLoadFrom(index: seq<EventKinds>)
      requires Valid()
      modifies this`solver, this`facts, this`timed
      ensures Valid()
      ensures forall m: Model :: AllHold(facts, m) <==>
        AllHold(old(facts), m) && forall a :: a in index ==> AllLoadsFrom(a, m)
    {
      var andLdf := TRUE_LITERAL;
      for i := 0 to |index|
        invariant Valid() && facts == old(facts)
        invariant forall m: Model :: Holds(andLdf, m) <==> forall k :: 0 <= k < i ==> AllLoadsFrom(index[k], m)
      {
        andLdf := EncodeLoads(andLdf, index[i]);
      }
      UnsafeAdd(andLdf);
      forall m: Model ensures AllHold(facts, m) <==> AllHold(old(facts), m) && Holds(andLdf, m) {
        AppendHolds(old(facts), andLdf, m);
      }
    }

    method EncodeFromLoadPair(andFld0: Constraint, ld: Event, s: Event, s': Event) returns (andFld: Constraint)
      requires Valid()
      modifies this`solver, this`timed
      ensures Valid()
      ensures forall m: Model :: Holds(andFld, m) <==> Holds(andFld0, m) && FromLoadPair(ld, s, s', m)
    {
      ThreeTimes(s, s', ld);
      andFld := Both(andFld0, FromLoadTerm(ld, s, s'));
    }

    /** From-load, one load and one store against all others. */
    method EncodeFromLoadStore(andFld0: Constraint, ld: Event, stores: seq<Event>, j: nat) returns (andFld: Constraint)
      requires Valid() && j < |stores|
      modifies this`solver, this`timed
      ensures Valid()
      ensures forall m: Model :: Holds(andFld, m) <==>
        Holds(andFld0, m) && forall k :: 0 <= k < |stores| && k != j ==> FromLoadPair(ld, stores[j], stores[k], m)
    {
      andFld := andFld0;
      for i := 0 to |stores|
        invariant Valid()
        invariant forall m: Model :: Holds(andFld, m) <==>
          Holds(andFld0, m) && forall k :: 0 <= k < i && k != j ==> FromLoadPair(ld, stores[j], stores[k], m)
      {
        if i == j { continue; }
        andFld := EncodeFromLoadPair(andFld, ld, stores[j], stores[i]);
      }
    }

    /** From-load, one load. */
    method EncodeFromLoadLoad(andFld0: Constraint, ld: Event, stores: seq<Event>) returns (andFld: Constraint)
      requires Valid()
      modifies this`solver, this`timed
      ensures Valid()
      ensures forall m: Model :: Holds(andFld, m) <==> Holds(andFld0, m) && FromLoad(ld, stores, m)
    {
      andFld := andFld0;
      for i := 0 to |stores|
        invariant Valid()
        invariant forall m: Model :: Holds(andFld, m) <==>
          Holds(andFld0, m) && forall j, k :: 0 <= j < i && 0 <= k < |stores| && j != k ==>
            FromLoadPair(ld, stores[j], stores[k], m)
      {
        andFld := EncodeFromLoadStore(andFld, ld, stores, i);
      }
    }

    /** From-load, one array. */
    method EncodeFromLoads(andFld0: Constraint, a: EventKinds) returns (andFld: Constraint)
      requires Valid()
      modifies this`solver, this`timed
      ensures Valid()
      ensures forall m: Model :: Holds(andFld, m) <==> Holds(andFld0, m) && AllFromLoad(a, m)
    {
      andFld := andFld0;
      for i := 0 to |a.loads|
        invariant Valid()
        invariant forall m: Model :: Holds(andFld, m) <==>
          Holds(andFld0, m) && forall k :: 0 <= k < i ==> FromLoad(a.loads[k], a.stores, m)
      {
        andFld := EncodeFromLoadLoad(andFld, a.loads[i], a.stores);
      }
    }

    /** Like from-read, with equal offsets. */
    method EncodeFromLoad(index: seq<EventKinds>)
      requires Valid()
      modifies this`solver, this`facts, this`timed
      ensures Valid()
      ensures forall m: Model :: AllHold(facts, m) <==>
        AllHold(old(facts), m) && forall a :: a in index ==> AllFromLoad(a, m)
    {
      var andFld := TRUE_LITERAL;
      for i := 0 to |index|
        invariant Valid() && facts == old(facts)
        invariant forall m: Model :: Holds(andFld, m) <==> forall k :: 0 <= k < i ==> AllFromLoad(index[k], m)
      {
        andFld := EncodeFromLoads(andFld, index[i]);
      }
      UnsafeAdd(andFld);
      forall m: Model ensures AllHold(facts, m) <==> AllHold(old(facts), m) && Holds(andFld, m) {
        AppendHolds(old(facts), andFld, m);
      }
    }

    /** All stores to one array happen at different times, whatever their offsets. */
    method EncodeStoreSerialization(index: seq<EventKinds>)
      requires Valid()
      modifies this`solver, this`facts, this`timed
      ensures Valid()
      ensures forall m: Model :: AllHold(facts, m) <==>
        AllHold(old(facts), m) && forall a :: a in index ==> Serialized(a.stores, m)
    {
      var andWs := TRUE_LITERAL;
      for i := 0 to |index|
        invariant Valid() && facts == old(facts)
        invariant forall m: Model :: Holds(andWs, m) <==> forall k :: 0 <= k < i ==> Serialized(index[k].stores, m)
      {
        if |index[i].stores| < 2 { continue; }
        var ids := TimesOf(index[i].stores);
        andWs := Both(andWs, DistinctTimes(ids));
      }
      UnsafeAdd(andWs);
      forall m: Model ensures AllHold(facts, m) <==> AllHold(old(facts), m) && Holds(andWs, m) {
        AppendHolds(old(facts), andWs, m);
      }
    }

    method EncodeArrayApi(index: seq<EventKinds>)
      requires Valid()
      modifies this
      ensures Valid()
      ensures forall m: Model :: AllHold(facts, m) <==> AllHold(old(facts), m) && ArrayApi(index, m)
    {
      EncodeLoadFrom(index);
      EncodeFromLoad(index);
      EncodeStoreSerialization(index);
    }

    /** The whole encoding of a trace without channels and messages. */
    method Encode(trace: Trace)
      requires Valid()
      modifies this
      ensures Valid()
      ensures forall m: Model :: AllHold(solver, m) <==>
        && AllHold(old(facts), m) && AfterEpoch(m)
        && trace.guard(m.data)
        && AllThreadOrder(trace.threads, m)
        && QuadraticMemory(trace.index, m)
        && StackApi(trace.index, m)
        && ArrayApi(trace.index, m)
    {
      UnsafeAdd(Fact(trace.guard));
      forall m: Model ensures AllHold(facts, m) <==> AllHold(old(facts), m) && trace.guard(m.data) {
        AppendHolds(old(facts), Fact(trace.guard), m);
      }
      EncodeThreadOrder(trace.threads);
      EncodeMemoryConcurrency(trace.index);
      EncodeStackApi(trace.index);
      EncodeArrayApi(trace.index);
    }
  }
}
