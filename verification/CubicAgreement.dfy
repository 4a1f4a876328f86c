/** The unpublished quadratic encoding of shared memory agrees with the published
    cubic one. */
module CubicAgreement {
  import opened Events
  import opened Encoding
  import opened Interleaving

  /** The write a read flows from lies in the same group as the read. */
  ghost predicate FlowsWithin(trace: Trace, m: Model, id: EventId)
  {
    exists a, r, w ::
      a in trace.index && r in a.readEvents && w in a.writeEvents && r.id == id && m.Flows(ReadFrom, w, r)
  }

  /** Add supremum times to a cubic model: the time of the source, or else the time of
      the read itself. */
  ghost function WithSup(trace: Trace, m: Model): Model
  {
    m.(sup := (id: EventId) =>
         if FlowsWithin(trace, m, id) && m.source(ReadFrom, id) >= 0 then m.time(m.source(ReadFrom, id))
         else m.time(id))
  }

  /** A cubic model becomes quadratic without changing times, values, guards or flow. */
  lemma CubicGivesQuadratic(trace: Trace, log: map<EventId, Access>, m: Model)
    requires Filed(trace, log) && CubicMemory(trace.index, m)
    ensures QuadraticMemory(trace.index, WithSup(trace, m))
  {
    forall a | a in trace.index ensures SupReads(a, WithSup(trace, m)) {
      forall r | r in a.readEvents ensures ReadsSup(r, a.writeEvents, WithSup(trace, m)) {
        ReadGetsSup(trace, log, m, a, r);
      }
    }
  }

  lemma ReadGetsSup(trace: Trace, log: map<EventId, Access>, m: Model, a: EventKinds, r: Event)
    requires Filed(trace, log) && CubicMemory(trace.index, m) && a in trace.index && r in a.readEvents
    ensures ReadsSup(r, a.writeEvents, WithSup(trace, m))
  {
    var m' := WithSup(trace, m);
    assert ReadsCubic(r, a.writeEvents, m) && FromRead(r, a.writeEvents, m);
    if HasSource(ReadFrom, a.writeEvents, r, m) {
      var w :| w in a.writeEvents && m.Flows(ReadFrom, w, r);
      assert FlowsWithin(trace, m, r.id);
      assert m'.Sup(r) == m.Time(w) && m'.Flows(ReadFrom, w, r);
      forall w' | w' in a.writeEvents ensures ReadsSupFrom(r, w', m') {
        var i :| 0 <= i < |a.writeEvents| && a.writeEvents[i] == w;
        var j :| 0 <= j < |a.writeEvents| && a.writeEvents[j] == w';
        assert i != j ==> FromReadPair(r, w, w', m);
      }
    } else {
      NoSourceElsewhere(trace, log, m, a, r);
      forall w' | w' in a.writeEvents ensures ReadsSupFrom(r, w', m') {
        assert !m.Flows(ReadFrom, w', r);
      }
    }
  }

  lemma NoSourceElsewhere(trace: Trace, log: map<EventId, Access>, m: Model, a: EventKinds, r: Event)
    requires Filed(trace, log) && a in trace.index && r in a.readEvents
    requires !HasSource(ReadFrom, a.writeEvents, r, m)
    ensures !FlowsWithin(trace, m, r.id)
  {
    forall b, r', w | b in trace.index && r' in b.readEvents && w in b.writeEvents && r'.id == r.id
      ensures !m.Flows(ReadFrom, w, r')
    {
      assert InGroup(trace, log[r.id], a) && InGroup(trace, log[r.id], b);
    }
  }

  ghost predicate IsReadId(log: map<EventId, Access>, id: EventId)
  {
    id in log && !log[id].isWrite
  }

  /** Make room between neighbouring times and move each read into the gap after its
      old time. */
  ghost function Spread(log: map<EventId, Access>, m: Model): Model
  {
    m.(time := (id: EventId) => 2 * m.time(id) + (if IsReadId(log, id) then 1 else 0))
  }

  /** Moving the reads keeps the order of any two events that had different times, and
      gives a cubic model with the same values, guards and flow. */
  lemma QuadraticGivesCubic(trace: Trace, log: map<EventId, Access>, m: Model)
    requires Filed(trace, log) && QuadraticMemory(trace.index, m) && AllThreadOrder(trace.threads, m)
    ensures CubicMemory(trace.index, Spread(log, m)) && AllThreadOrder(trace.threads, Spread(log, m))
    ensures forall x: EventId, y: EventId :: m.time(x) < m.time(y) ==> Spread(log, m).time(x) < Spread(log, m).time(y)
  {
    var m' := Spread(log, m);
    forall a | a in trace.index ensures CubicReads(a, m') && FromReads(a, m') && Serialized(a.writeEvents, m') {
      forall r | r in a.readEvents ensures ReadsCubic(r, a.writeEvents, m') && FromRead(r, a.writeEvents, m') {
        ReadGetsGap(trace, log, m, a, r);
      }
      forall w | w in a.writeEvents ensures m'.Time(w) == 2 * m.Time(w) {
        FiledWrite(trace, log, a, w);
      }
    }
    forall t | t in trace.threads ensures ThreadOrder(t, m') {
      assert ThreadOrder(t, m);
    }
  }

  lemma ReadGetsGap(trace: Trace, log: map<EventId, Access>, m: Model, a: EventKinds, r: Event)
    requires Filed(trace, log) && QuadraticMemory(trace.index, m) && a in trace.index && r in a.readEvents
    ensures ReadsCubic(r, a.writeEvents, Spread(log, m)) && FromRead(r, a.writeEvents, Spread(log, m))
  {
    var m' := Spread(log, m);
    assert ReadsSup(r, a.writeEvents, m);
    forall w | w in a.writeEvents
      ensures m'.Time(w) == 2 * m.Time(w) && m'.Time(r) == 2 * m.Time(r) + 1 && ReadsSupFrom(r, w, m)
    {
      SameGroup(trace, log, a, r, w);
    }
    if m.Guard(r) {
      var w :| w in a.writeEvents && m.Flows(ReadFrom, w, r);
      assert m'.Flows(ReadFrom, w, r);
    }
    forall i, j | 0 <= i < |a.writeEvents| && 0 <= j < |a.writeEvents| && i != j
      ensures FromReadPair(r, a.writeEvents[i], a.writeEvents[j], m')
    {
      assert ReadsSupFrom(r, a.writeEvents[i], m) && ReadsSupFrom(r, a.writeEvents[j], m);
    }
  }

  ghost predicate SameFlow(m: Model, m': Model)
  {
    m.data == m'.data && m.source == m'.source
  }

  ghost predicate QuadraticSatisfiable(trace: Trace, given: Model)
  {
    exists m: Model :: SameFlow(m, given) && AllThreadOrder(trace.threads, m) && QuadraticMemory(trace.index, m)
  }

  ghost predicate CubicSatisfiable(trace: Trace, given: Model)
  {
    exists m: Model :: SameFlow(m, given) && AllThreadOrder(trace.threads, m) && CubicMemory(trace.index, m)
  }

  /** Main result: for given values, guards and read-from relation, one encoding has a
      satisfying assignment exactly if the other has. */
  lemma EncodingsAgree(trace: Trace, log: map<EventId, Access>, given: Model)
    requires Filed(trace, log)
    ensures QuadraticSatisfiable(trace, given) <==> CubicSatisfiable(trace, given)
  {
    if QuadraticSatisfiable(trace, given) {
      var m: Model :| SameFlow(m, given) && AllThreadOrder(trace.threads, m) && QuadraticMemory(trace.index, m);
      QuadraticGivesCubic(trace, log, m);
      assert SameFlow(Spread(log, m), given);
    }
    if CubicSatisfiable(trace, given) {
      var m: Model :| SameFlow(m, given) && AllThreadOrder(trace.threads, m) && CubicMemory(trace.index, m);
      CubicGivesQuadratic(trace, log, m);
      assert SameFlow(WithSup(trace, m), given);
      forall t | t in trace.threads ensures ThreadOrder(t, WithSup(trace, m)) {
        assert ThreadOrder(t, m);
      }
    }
  }

  // ---- What the encoder hands to the solver ------------------------------------------------

  /** All times moved by the same amount. */
  ghost function Shifted(m: Model, c: int): Model
  {
    m.(time := (id: EventId) => m.time(id) + c, sup := (id: EventId) => m.sup(id) + c)
  }

  lemma ShiftQuadratic(trace: Trace, m: Model, c: int)
    requires AllThreadOrder(trace.threads, m) && QuadraticMemory(trace.index, m)
    ensures AllThreadOrder(trace.threads, Shifted(m, c)) && QuadraticMemory(trace.index, Shifted(m, c))
  {
    ShiftThreads(trace.threads, m, c);
    forall a | a in trace.index ensures SupReads(a, Shifted(m, c)) && Serialized(a.writeEvents, Shifted(m, c)) {
      forall r | r in a.readEvents ensures ReadsSup(r, a.writeEvents, Shifted(m, c)) {
        assert ReadsSup(r, a.writeEvents, m);
        assert forall w :: w in a.writeEvents ==> ReadsSupFrom(r, w, m);
        assert HasSource(ReadFrom, a.writeEvents, r, m) ==> HasSource(ReadFrom, a.writeEvents, r, Shifted(m, c));
      }
    }
  }

  lemma ShiftCubic(trace: Trace, m: Model, c: int)
    requires AllThreadOrder(trace.threads, m) && CubicMemory(trace.index, m)
    ensures AllThreadOrder(trace.threads, Shifted(m, c)) && CubicMemory(trace.index, Shifted(m, c))
  {
    ShiftThreads(trace.threads, m, c);
    forall a, r | a in trace.index && r in a.readEvents
      ensures ReadsCubic(r, a.writeEvents, Shifted(m, c)) && FromRead(r, a.writeEvents, Shifted(m, c))
    {
      ShiftCubicRead(a, r, m, c);
    }
    assert forall a :: a in trace.index ==> CubicReads(a, Shifted(m, c)) && FromReads(a, Shifted(m, c));
  }

  lemma ShiftCubicRead(a: EventKinds, r: Event, m: Model, c: int)
    requires ReadsCubic(r, a.writeEvents, m) && FromRead(r, a.writeEvents, m)
    ensures ReadsCubic(r, a.writeEvents, Shifted(m, c)) && FromRead(r, a.writeEvents, Shifted(m, c))
  {
    var ws := a.writeEvents;
    assert HasSource(ReadFrom, ws, r, m) ==> HasSource(ReadFrom, ws, r, Shifted(m, c));
    forall i, j | 0 <= i < |ws| && 0 <= j < |ws| && i != j ensures FromReadPair(r, ws[i], ws[j], Shifted(m, c)) {
      assert FromReadPair(r, ws[i], ws[j], m);
    }
  }

  lemma ShiftThreads(threads: seq<seq<EventId>>, m: Model, c: int)
    requires AllThreadOrder(threads, m)
    ensures AllThreadOrder(threads, Shifted(m, c))
  {
    forall i | 0 <= i < |threads| ensures ThreadOrder(threads[i], Shifted(m, c)) {
      assert ThreadOrder(threads[i], m);
    }
  }

  /** Finitely many times can be moved past the epoch together. */
  lemma {:induction false} PastEpoch(ids: set<EventId>, time: EventId -> int) returns (c: int)
    ensures forall id :: id in ids ==> time(id) + c > 0
  {
    if ids == {} {
      c := 0;
    } else {
      var x :| x in ids;
      c := PastEpoch(ids - {x}, time);
      c := if time(x) + c > 0 then c else 1 - time(x);
    }
  }

  lemma ShiftPastEpoch(m: Model, timed: set<EventId>, supTimed: set<EventId>) returns (c: int)
    ensures forall id :: id in timed ==> Shifted(m, c).time(id) > 0
    ensures forall id :: id in supTimed ==> Shifted(m, c).sup(id) > 0
  {
    var c1 := PastEpoch(timed, m.time);
    var c2 := PastEpoch(supTimed, m.sup);
    c := if c1 < c2 then c2 else c1;
  }

  /** Some model of the solver has the given values, guards and flow. */
  ghost predicate SatisfiableAs(solver: seq<Constraint>, given: Model)
  {
    exists m: Model :: SameFlow(m, given) && AllHold(solver, m)
  }

  /** The build with supremum times and the one without hand constraints to the solver that
      have models for the same values, guards and read-from relations. */
  method EncodeBothBuilds(trace: Trace, ghost log: map<EventId, Access>)
    returns (quadratic: seq<Constraint>, cubic: seq<Constraint>)
    requires Filed(trace, log)
    ensures forall given: Model :: SatisfiableAs(quadratic, given) <==> SatisfiableAs(cubic, given)
  {
    quadratic := EncodeQuadratic(trace);
    cubic := EncodeCubic(trace);
    forall given: Model ensures SatisfiableAs(quadratic, given) <==> SatisfiableAs(cubic, given) {
      EncodingsAgree(trace, log, given);
    }
  }

  method EncodeQuadratic(trace: Trace) returns (solver: seq<Constraint>)
    ensures forall given: Model :: SatisfiableAs(solver, given) <==> QuadraticSatisfiable(trace, given)
  {
    var encoder := new Encoder();
    encoder.EncodeThreadOrder(trace.threads);
    encoder.EncodeMemoryConcurrency(trace.index);
    solver := encoder.solver;
    forall given: Model | QuadraticSatisfiable(trace, given) ensures SatisfiableAs(solver, given) {
      var m: Model :| SameFlow(m, given) && AllThreadOrder(trace.threads, m) && QuadraticMemory(trace.index, m);
      var c := ShiftPastEpoch(m, encoder.timed, encoder.supTimed);
      ShiftQuadratic(trace, m, c);
      assert AllHold(solver, Shifted(m, c)) && SameFlow(Shifted(m, c), given);
    }
    assert forall m: Model :: AllHold(solver, m) ==>
      AllThreadOrder(trace.threads, m) && QuadraticMemory(trace.index, m);
  }

  method EncodeCubic(trace: Trace) returns (solver: seq<Constraint>)
    ensures forall given: Model :: SatisfiableAs(solver, given) <==> CubicSatisfiable(trace, given)
  {
    var encoder := new Encoder();
    encoder.EncodeThreadOrder(trace.threads);
    encoder.EncodeMemoryConcurrencyCubic(trace.index);
    solver := encoder.solver;
    forall given: Model | CubicSatisfiable(trace, given) ensures SatisfiableAs(solver, given) {
      var m: Model :| SameFlow(m, given) && AllThreadOrder(trace.threads, m) && CubicMemory(trace.index, m);
      var c := ShiftPastEpoch(m, encoder.timed, encoder.supTimed);
      ShiftCubic(trace, m, c);
      assert AllHold(solver, Shifted(m, c)) && SameFlow(Shifted(m, c), given);
    }
    assert forall m: Model :: AllHold(solver, m) ==> AllThreadOrder(trace.threads, m) && CubicMemory(trace.index, m);
  }
}
