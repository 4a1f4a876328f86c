/** Stacks whose operations may happen at the same time: the encoder does not keep pushes
    and pops apart, and its axioms are those of a real stack once ties are broken. */
module StackTies {
  import opened Events
  import opened Sorting
  import opened StackExactness
  import opened TieBreaking

  ghost predicate OnStack(a: EventKinds, e: Event)
  {
    e in a.pushes || e in a.pops
  }

  /** Of two simultaneous pushes, the one that is popped later, or never, comes first; so
      if the first is popped, then the second has been popped before. */
  ghost predicate TakenFirst(a: EventKinds, m: Model, m': Model)
  {
    forall push, push', pop ::
      push in a.pushes && push' in a.pushes && pop in a.pops && Tied(m, m', push, push', pop) ==>
      TakenBefore(a, m, m', push', pop)
  }

  /** `push`, which is popped, is put before the simultaneous `push'`. */
  ghost predicate Tied(m: Model, m': Model, push: Event, push': Event, pop: Event)
  {
    m.Time(push) == m.Time(push') && m'.Time(push) < m'.Time(push') && m.Flows(PopFrom, push, pop)
  }

  ghost predicate TakenBefore(a: EventKinds, m: Model, m': Model, push: Event, pop: Event)
  {
    exists pop' :: pop' in a.pops && m.Flows(PopFrom, push, pop') && m'.Time(pop') < m'.Time(pop)
  }

  /** `m'` puts the operations of `a` one after the other: by time, then pops before
      pushes, then pushes in the order opposite to that of their pops. */
  ghost predicate BreaksTies(a: EventKinds, m: Model, m': Model)
  {
    && m'.data == m.data && m'.source == m.source
    && Serialized(a.pushes + a.pops, m')
    && (forall e, f :: OnStack(a, e) && OnStack(a, f) && m.Time(e) < m.Time(f) ==> m'.Time(e) < m'.Time(f))
    && (forall push, pop :: push in a.pushes && pop in a.pops && m.Time(push) == m.Time(pop) ==>
          m'.Time(pop) < m'.Time(push))
    && TakenFirst(a, m, m')
  }

  /** A push popped from below a later one is not popped at the same time as that. */
  ghost predicate Apart(a: EventKinds, m: Model)
  {
    forall push, push', pop :: push in a.pushes && push' in a.pushes && pop in a.pops ==>
      LevelsApart(a, m, push, push', pop)
  }

  ghost predicate LevelsApart(a: EventKinds, m: Model, push: Event, push': Event, pop: Event)
  {
    m.Flows(PopFrom, push, pop) && m.Time(push) < m.Time(push') < m.Time(pop) ==>
      forall pop' :: pop' in a.pops && m.Flows(PopFrom, push', pop') ==> m.Time(pop') != m.Time(pop)
  }

  // ---- Breaking ties keeps the axioms ----------------------------------------------------

  lemma TiesBrokenLifo(a: EventKinds, m: Model, m': Model, push: Event, push': Event, pop: Event)
    requires StackEncoded(a, m) && BreaksTies(a, m, m')
    requires push in a.pushes && push' in a.pushes && pop in a.pops
    ensures LifoOrder(push, push', pop, a.pops, m')
  {
    if m'.Flows(PopFrom, push, pop) && m'.Time(push) < m'.Time(push') < m'.Time(pop) {
      assert OnStack(a, push) && OnStack(a, push') && OnStack(a, pop);
      assert m.Time(push) <= m.Time(push') < m.Time(pop);
      if m.Time(push) < m.Time(push') {
        assert LifoOrder(push, push', pop, a.pops, m);
        assert HasTarget(PopFrom, push', a.pops, m) ==> HasTarget(PopFrom, push', a.pops, m');
        assert forall e :: e in a.pops ==> OnStack(a, e);
      } else {
        assert Tied(m, m', push, push', pop);
        SimultaneousLifo(a, m, m', push', pop);
      }
    }
  }

  lemma SimultaneousLifo(a: EventKinds, m: Model, m': Model, push: Event, pop: Event)
    requires PopsInjective(a.pops, m) && m'.source == m.source && TakenBefore(a, m, m', push, pop)
    ensures HasTarget(PopFrom, push, a.pops, m')
    ensures forall e :: e in a.pops && m'.Flows(PopFrom, push, e) ==> m'.Time(e) < m'.Time(pop)
  {
    var pop' :| pop' in a.pops && m.Flows(PopFrom, push, pop') && m'.Time(pop') < m'.Time(pop);
    assert m'.Flows(PopFrom, push, pop');
    forall e | e in a.pops && m'.Flows(PopFrom, push, e) ensures e == pop' {
      OneTaker(a, m, push, e, pop');
    }
  }

  lemma OneTaker(a: EventKinds, m: Model, push: Event, pop: Event, pop': Event)
    requires PopsInjective(a.pops, m) && pop in a.pops && pop' in a.pops
    requires m.Flows(PopFrom, push, pop) && m.Flows(PopFrom, push, pop')
    ensures pop == pop'
  {
    var i :| 0 <= i < |a.pops| && a.pops[i] == pop;
    var j :| 0 <= j < |a.pops| && a.pops[j] == pop';
    assert m.source(PopFrom, a.pops[i].id) == m.source(PopFrom, a.pops[j].id);
  }

  lemma TiesBrokenEncoded(a: EventKinds, m: Model, m': Model)
    requires StackEncoded(a, m) && BreaksTies(a, m, m')
    ensures StackEncoded(a, m')
  {
    forall pop | pop in a.pops ensures PopsFrom(pop, a.pushes, m') {
      assert PopsFrom(pop, a.pushes, m);
      var w :| w in a.pushes && m.Flows(PopFrom, w, pop);
      assert m'.Flows(PopFrom, w, pop);
      assert forall e :: e in a.pushes ==> OnStack(a, e);
      assert OnStack(a, pop);
    }
    forall push, push', pop | push in a.pushes && push' in a.pushes && pop in a.pops
      ensures LifoOrder(push, push', pop, a.pops, m')
    {
      TiesBrokenLifo(a, m, m', push, push', pop);
    }
  }

  /** Ties broken in this way say nothing that the axioms do not say, provided that
      different levels of the stack are not popped at once. */
  lemma TiesRestored(a: EventKinds, m: Model, m': Model)
    requires BreaksTies(a, m, m') && StackEncoded(a, m') && Apart(a, m)
    ensures StackEncoded(a, m)
  {
    forall pop | pop in a.pops ensures PopsFrom(pop, a.pushes, m) {
      RestoredPop(a, m, m', pop);
    }
    forall push, push', pop | push in a.pushes && push' in a.pushes && pop in a.pops
      ensures LifoOrder(push, push', pop, a.pops, m)
    {
      RestoredLifo(a, m, m', push, push', pop);
    }
  }

  lemma RestoredPop(a: EventKinds, m: Model, m': Model, pop: Event)
    requires BreaksTies(a, m, m') && pop in a.pops && PopsFrom(pop, a.pushes, m')
    ensures PopsFrom(pop, a.pushes, m)
  {
    forall w | w in a.pushes && m.Flows(PopFrom, w, pop) ensures m.Time(w) < m.Time(pop) {
      assert m'.Flows(PopFrom, w, pop);
      assert OnStack(a, w) && OnStack(a, pop);
    }
    var w :| w in a.pushes && m'.Flows(PopFrom, w, pop);
    assert m.Flows(PopFrom, w, pop);
  }

  lemma RestoredLifo(a: EventKinds, m: Model, m': Model, push: Event, push': Event, pop: Event)
    requires BreaksTies(a, m, m') && push in a.pushes && push' in a.pushes && pop in a.pops
    requires LifoOrder(push, push', pop, a.pops, m') && LevelsApart(a, m, push, push', pop)
    ensures LifoOrder(push, push', pop, a.pops, m)
  {
    assert OnStack(a, push) && OnStack(a, push') && OnStack(a, pop);
    assert HasTarget(PopFrom, push', a.pops, m') ==> HasTarget(PopFrom, push', a.pops, m);
    forall e | e in a.pops && m.Flows(PopFrom, push', e) ensures m'.Time(e) < m'.Time(pop) ==>
      m.Time(e) <= m.Time(pop) {
      assert OnStack(a, e);
    }
  }

  lemma EncodedApart(a: EventKinds, m: Model)
    requires StackEncoded(a, m)
    ensures Apart(a, m)
  {
    forall push, push', pop | push in a.pushes && push' in a.pushes && pop in a.pops
      ensures LevelsApart(a, m, push, push', pop)
    {
      LifoApart(a, m, push, push', pop);
    }
  }

  lemma LifoApart(a: EventKinds, m: Model, push: Event, push': Event, pop: Event)
    requires LifoOrder(push, push', pop, a.pops, m)
    ensures LevelsApart(a, m, push, push', pop)
  {
  }

  // ---- Ties can be broken ------------------------------------------------------------------

  /** Every operation of the stack is an event of its own. */
  ghost predicate OwnIds(a: EventKinds)
  {
    forall i, j :: 0 <= i < j < |a.pushes + a.pops| ==> (a.pushes + a.pops)[i].id != (a.pushes + a.pops)[j].id
  }

  /** The ties speak of the operations of `a` and of what flows between them. */
  ghost predicate Fits(a: EventKinds, m: Model, ties: Ties)
  {
    && (forall e :: e in a.pops ==> ties.isPop(e.id) && !ties.late(e.id))
    && (forall e :: e in a.pushes ==> ties.late(e.id) && !ties.isPop(e.id))
    && (forall push, pop :: push in a.pushes && pop in a.pops && m.Flows(PopFrom, push, pop) ==>
          ties.taker(push.id) == pop.id)
    && (forall push :: push in a.pushes && ties.taker(push.id) >= 0 ==> IsTaken(a, m, push, ties.taker(push.id)))
  }

  ghost predicate IsTaken(a: EventKinds, m: Model, push: Event, id: int)
  {
    exists pop :: pop in a.pops && pop.id == id && m.Flows(PopFrom, push, pop)
  }

  ghost predicate Within(a: EventKinds, ids: set<EventId>)
  {
    forall e :: OnStack(a, e) ==> e.id in ids
  }

  lemma RankedSerialized(a: EventKinds, m: Model, schedule: seq<EventId>)
    requires OwnIds(a) && forall e :: OnStack(a, e) ==> e.id in schedule
    ensures Serialized(a.pushes + a.pops, Ranked(schedule, m))
  {
    var es := a.pushes + a.pops;
    forall i, j | 0 <= i < j < |es| ensures Rank(schedule, es[i].id) != Rank(schedule, es[j].id) {
      assert OnStack(a, es[i]) && OnStack(a, es[j]);
      RanksDiffer(schedule, es[i].id, es[j].id);
    }
  }

  /** Of two simultaneous pushes the one popped first comes second. */
  lemma RankedTaken(a: EventKinds, m: Model, ids: set<EventId>, ties: Ties, push: Event, push': Event, pop: Event)
    requires Fits(a, m, ties) && Within(a, ids)
    requires push in a.pushes && push' in a.pushes && pop in a.pops
    requires Tied(m, Ranked(Ordering(ids, m.time, ties), m), push, push', pop)
    ensures TakenBefore(a, m, Ranked(Ordering(ids, m.time, ties), m), push', pop)
  {
    SecondGrows(a, m, ids, ties, push, push', pop);
    var pop' := TakerOf(a, m, ties, push');
    DifferentTakers(m, push, push', pop, pop');
    SoonerPop(a, m, ids, ties, pop', pop);
  }

  lemma TakerOf(a: EventKinds, m: Model, ties: Ties, push: Event) returns (pop: Event)
    requires Fits(a, m, ties) && push in a.pushes && ties.taker(push.id) >= 0
    ensures pop in a.pops && pop.id == ties.taker(push.id) && m.Flows(PopFrom, push, pop)
  {
    assert IsTaken(a, m, push, ties.taker(push.id));
    pop :| pop in a.pops && pop.id == ties.taker(push.id) && m.Flows(PopFrom, push, pop);
  }

  lemma DifferentTakers(m: Model, push: Event, push': Event, pop: Event, pop': Event)
    requires push.id != push'.id && m.Flows(PopFrom, push, pop) && m.Flows(PopFrom, push', pop')
    ensures pop.id != pop'.id
  {
  }

  lemma SoonerPop(a: EventKinds, m: Model, ids: set<EventId>, ties: Ties, pop: Event, pop': Event)
    requires Fits(a, m, ties) && Within(a, ids) && pop in a.pops && pop' in a.pops && pop.id != pop'.id
    requires Rank(Base(ids, m.time), pop.id) <= Rank(Base(ids, m.time), pop'.id)
    ensures Rank(Ordering(ids, m.time, ties), pop.id) < Rank(Ordering(ids, m.time, ties), pop'.id)
  {
    assert OnStack(a, pop) && OnStack(a, pop');
    RanksDiffer(Base(ids, m.time), pop.id, pop'.id);
    PopsInBaseOrder(a, m, ids, ties, pop, pop');
  }

  lemma SecondGrows(a: EventKinds, m: Model, ids: set<EventId>, ties: Ties, push: Event, push': Event, pop: Event)
    requires Fits(a, m, ties) && Within(a, ids)
    requires push in a.pushes && push' in a.pushes && pop in a.pops
    requires Tied(m, Ranked(Ordering(ids, m.time, ties), m), push, push', pop)
    ensures ties.taker(push'.id) >= 0
    ensures Rank(Base(ids, m.time), ties.taker(push'.id)) <= Rank(Base(ids, m.time), pop.id)
  {
    var base := Base(ids, m.time);
    assert OnStack(a, push) && OnStack(a, push') && OnStack(a, pop);
    assert pop.id in base && ties.taker(push.id) == pop.id;
    if Second(base, ties, push'.id) < Second(base, ties, push.id) {
      SoonerFirst(ids, m.time, ties, push'.id, push.id);
    }
    assert Second(base, ties, push.id) == |base| + 1 - Rank(base, pop.id);
  }

  lemma PopsInBaseOrder(a: EventKinds, m: Model, ids: set<EventId>, ties: Ties, pop: Event, pop': Event)
    requires Fits(a, m, ties) && Within(a, ids) && pop in a.pops && pop' in a.pops
    requires Rank(Base(ids, m.time), pop.id) < Rank(Base(ids, m.time), pop'.id)
    ensures Rank(Ordering(ids, m.time, ties), pop.id) < Rank(Ordering(ids, m.time, ties), pop'.id)
  {
    assert OnStack(a, pop) && OnStack(a, pop');
    BaseByTime(ids, m.time, pop.id, pop'.id);
    SoonerFirst(ids, m.time, ties, pop.id, pop'.id);
  }

  lemma RankedBreaksTies(a: EventKinds, m: Model, ids: set<EventId>, ties: Ties)
    requires OwnIds(a) && Fits(a, m, ties) && Within(a, ids)
    ensures BreaksTies(a, m, Ranked(Ordering(ids, m.time, ties), m))
  {
    var m' := Ranked(Ordering(ids, m.time, ties), m);
    RankedSerialized(a, m, Ordering(ids, m.time, ties));
    forall e, f | OnStack(a, e) && OnStack(a, f) && m.Time(e) < m.Time(f) ensures m'.Time(e) < m'.Time(f) {
      SoonerFirst(ids, m.time, ties, e.id, f.id);
    }
    forall push, pop | push in a.pushes && pop in a.pops && m.Time(push) == m.Time(pop)
      ensures m'.Time(pop) < m'.Time(push)
    {
      assert OnStack(a, push) && OnStack(a, pop);
      SoonerFirst(ids, m.time, ties, pop.id, push.id);
    }
    forall push, push', pop | push in a.pushes && push' in a.pushes && pop in a.pops
                            && Tied(m, m', push, push', pop)
      ensures TakenBefore(a, m, m', push', pop)
    {
      RankedTaken(a, m, ids, ties, push, push', pop);
    }
  }

  // ---- The axioms, with simultaneous operations --------------------------------------------

  ghost predicate RunsOnStack(a: EventKinds, m: Model)
    requires Serialized(a.pushes + a.pops, m)
  {
    After(TimeOrdered(a, m), m).Stack?
  }

  /** Soundness for any times: a satisfying assignment runs on a real stack however ties
      are broken in the way above. */
  lemma EncodedRuns(a: EventKinds, m: Model, m': Model)
    requires StackEncoded(a, m) && BreaksTies(a, m, m')
    ensures RunsOnStack(a, m')
  {
    TiesBrokenEncoded(a, m, m');
    StackEncodingExact(a, m');
  }

  ghost function StackIds(a: EventKinds): set<EventId>
  {
    set e | e in a.pushes + a.pops :: e.id
  }

  ghost function StackTies(a: EventKinds, m: Model): Ties
  {
    Ties((id: EventId) => exists e :: e in a.pushes && e.id == id,
         (id: EventId) => exists e :: e in a.pops && e.id == id,
         (id: EventId) => if exists pop :: Taker(a, m, id, pop) then (var pop :| Taker(a, m, id, pop); pop.id) else -1)
  }

  ghost predicate Taker(a: EventKinds, m: Model, id: EventId, pop: Event)
  {
    pop in a.pops && m.source(PopFrom, pop.id) == id
  }

  lemma StackTiesFit(a: EventKinds, m: Model)
    requires OwnIds(a) && PopsInjective(a.pops, m)
    ensures Fits(a, m, StackTies(a, m))
  {
    forall push, pop | push in a.pushes && pop in a.pops ensures push.id != pop.id {
      var i :| 0 <= i < |a.pushes| && a.pushes[i] == push;
      var j :| 0 <= j < |a.pops| && a.pops[j] == pop;
      assert (a.pushes + a.pops)[i] == push && (a.pushes + a.pops)[|a.pushes| + j] == pop;
    }
    forall push, pop | push in a.pushes && pop in a.pops && m.Flows(PopFrom, push, pop)
      ensures StackTies(a, m).taker(push.id) == pop.id
    {
      assert Taker(a, m, push.id, pop);
      forall pop' | Taker(a, m, push.id, pop') ensures pop' == pop {
        OneTaker(a, m, push, pop, pop');
      }
    }
    forall push | push in a.pushes && StackTies(a, m).taker(push.id) >= 0
      ensures IsTaken(a, m, push, StackTies(a, m).taker(push.id))
    {
      var pop :| Taker(a, m, push.id, pop) && pop.id == StackTies(a, m).taker(push.id);
      assert m.Flows(PopFrom, push, pop);
    }
  }

  /** Main result, for any times: the axioms hold exactly if the operations run on a real
      stack after breaking ties, no pop is disabled, and no two levels of the stack are popped
      at once. */
  lemma StackEncodingDecided(a: EventKinds, m: Model)
    requires OwnIds(a)
    ensures StackEncoded(a, m) <==>
      PopsEnabled(a, m.data) && Apart(a, m) && exists m': Model :: BreaksTies(a, m, m') && RunsOnStack(a, m')
  {
    if StackEncoded(a, m) {
      EncodedEnabled(a, m);
      EncodedApart(a, m);
      StackTiesFit(a, m);
      var m' := Ranked(Ordering(StackIds(a), m.time, StackTies(a, m)), m);
      RankedBreaksTies(a, m, StackIds(a), StackTies(a, m));
      EncodedRuns(a, m, m');
    }
    if PopsEnabled(a, m.data) && Apart(a, m) && exists m': Model :: BreaksTies(a, m, m') && RunsOnStack(a, m') {
      var m': Model :| BreaksTies(a, m, m') && RunsOnStack(a, m');
      StackEncodingExact(a, m');
      TiesRestored(a, m, m');
    }
  }

  // ---- Legitimate runs that the encoding rejects ----------------------------------------------

  /** A pop whose guard is false, and nothing else. */
  function DisabledPop(): EventKinds
  {
    EventKinds([], [], [Event(1, 0, d => false, d => 0, d => 0)], [], [], [])
  }

  /** A disabled pop rules out every model, although the stack has nothing to do. */
  lemma DisabledPopRejected(m: Model)
    ensures var a := DisabledPop();
      BreaksTies(a, m, m) && RunsOnStack(a, m) && Apart(a, m) && !StackEncoded(a, m)
  {
    var a := DisabledPop();
    NothingPopped(TimeOrdered(a, m), m);
    assert a.pops[0] in a.pops && !PopsFrom(a.pops[0], a.pushes, m);
  }

  /** Disabled operations leave the stack empty. */
  lemma {:induction false} NothingPopped(ops: seq<StackOp>, m: Model)
    requires forall op :: op in ops ==> !m.Guard(op.e)
    ensures After(ops, m) == Stack([])
  {
    if ops != [] {
      NothingPopped(ops[..|ops| - 1], m);
      assert ops[|ops| - 1] in ops;
    }
  }

  function Operation(id: EventId, value: int): Event
  {
    Event(id, 0, d => true, d => value, d => 0)
  }

  /** Push 0 at time 1, push 1 at time 2, and pop both at time 3. */
  function TwoPops(): EventKinds
  {
    EventKinds([], [], [Operation(2, 7), Operation(3, 8)], [Operation(0, 7), Operation(1, 8)], [], [])
  }

  function TwoPopsModel(last: int): Model
  {
    Model(n => 0, (id: EventId) => if id < 2 then id + 1 else if id == 2 then last else 3, (id: EventId) => 0,
          (flow: Flow, id: EventId) => id - 2)
  }

  /** Popping the upper element just before the lower one is what a stack does, but when both
      pops get the same time the axioms reject it. */
  lemma SimultaneousPopsRejected()
    ensures BreaksTies(TwoPops(), TwoPopsModel(3), TwoPopsModel(4)) && RunsOnStack(TwoPops(), TwoPopsModel(4))
    ensures !StackEncoded(TwoPops(), TwoPopsModel(3))
  {
    TwoPopsTies();
    TwoPopsEncoded();
    EncodedItselfRuns(TwoPops(), TwoPopsModel(4));
    TwoPopsNotApart();
    EncodedOnlyIfApart(TwoPops(), TwoPopsModel(3));
  }

  lemma EncodedOnlyIfApart(a: EventKinds, m: Model)
    ensures StackEncoded(a, m) ==> Apart(a, m)
  {
    if StackEncoded(a, m) {
      EncodedApart(a, m);
    }
  }

  lemma EncodedItselfRuns(a: EventKinds, m: Model)
    requires Serialized(a.pushes + a.pops, m) && StackEncoded(a, m)
    ensures RunsOnStack(a, m)
  {
    StackEncodingExact(a, m);
  }

  lemma TwoPopsNotApart()
    ensures !Apart(TwoPops(), TwoPopsModel(3))
  {
    var a, m := TwoPops(), TwoPopsModel(3);
    var push, push', pop, pop' := Operation(0, 7), Operation(1, 8), Operation(2, 7), Operation(3, 8);
    assert a.pushes == [push, push'] && a.pops == [pop, pop'];
    assert push in a.pushes && push' in a.pushes && pop in a.pops && pop' in a.pops;
    assert m.Flows(PopFrom, push', pop');
    assert !LevelsApart(a, m, push, push', pop);
  }

  lemma TwoPopsTies()
    ensures BreaksTies(TwoPops(), TwoPopsModel(3), TwoPopsModel(4))
  {
    var a, m, m' := TwoPops(), TwoPopsModel(3), TwoPopsModel(4);
    assert Serialized(a.pushes + a.pops, m');
    forall e, f | OnStack(a, e) && OnStack(a, f) && m.Time(e) < m.Time(f) ensures m'.Time(e) < m'.Time(f) {
      assert e.id < 2 || e.id == 2 || e.id == 3;
    }
  }

  lemma TwoPopsEncoded()
    ensures StackEncoded(TwoPops(), TwoPopsModel(4))
  {
    var a, m := TwoPops(), TwoPopsModel(4);
    forall pop | pop in a.pops ensures PopsFrom(pop, a.pushes, m) {
      assert m.Flows(PopFrom, a.pushes[pop.id - 2], pop);
    }
    forall push, push', pop | push in a.pushes && push' in a.pushes && pop in a.pops
      ensures LifoOrder(push, push', pop, a.pops, m)
    {
      assert m.Flows(PopFrom, a.pushes[1], a.pops[1]) && a.pops[1] in a.pops;
    }
  }
}
