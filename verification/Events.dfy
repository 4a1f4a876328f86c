/** Events of a loop-free concurrent program, and the constraints over event times
    and data flow that the encoder hands to the solver. */
module Events {

  /** Values of the symbolic program data; terms and guards are evaluated in it. */
  type Data = nat -> int

  type EventId = nat

  /** A memory, stack or array event.  Synchronization events have no data and appear
      only in the thread lists, by their identifier. */
  datatype Event = Event(id: EventId, address: nat, guard: Data -> bool, term: Data -> int, offset: Data -> int)

  /** Events on one address, by kind. */
  datatype EventKinds = EventKinds(
    readEvents: seq<Event>, writeEvents: seq<Event>,
    pops: seq<Event>, pushes: seq<Event>,
    loads: seq<Event>, stores: seq<Event>)

  /** What a tracer has collected: per thread the event identifiers in program order,
      and per address the events. */
  datatype Trace = Trace(guard: Data -> bool, threads: seq<seq<EventId>>, index: seq<EventKinds>)

  /** The three families of data flow symbols `rf!`, `pf!` and `ldf!`. */
  datatype Flow = ReadFrom | PopFrom | LoadFrom

  datatype TimePoint = Epoch | TimeOf(id: EventId) | SupOf(id: EventId)

  datatype Constraint =
    | Fact(holds: Data -> bool)
    | Before(a: TimePoint, b: TimePoint)
    | NotAfter(a: TimePoint, b: TimePoint)
    | Same(a: TimePoint, b: TimePoint)
    | FlowsTo(flow: Flow, source: EventId, target: EventId)
    | DistinctTimes(ids: seq<EventId>)
    | DistinctSources(flow: Flow, ids: seq<EventId>)
    | Not(arg: Constraint)
    | And(left: Constraint, right: Constraint)
    | Or(left: Constraint, right: Constraint)
    | Implies(left: Constraint, right: Constraint)

  /** An assignment of the solver.  Times are unbounded integers. */
  datatype Model = Model(data: Data, time: EventId -> int, sup: EventId -> int, source: (Flow, EventId) -> int)
  {
    predicate Flows(flow: Flow, from: Event, to: Event)
    {
      source(flow, to.id) == from.id
    }
    predicate Guard(e: Event) { e.guard(data) }
    function Time(e: Event): int { time(e.id) }
    function Sup(e: Event): int { sup(e.id) }
    function Value(e: Event): int { e.term(data) }
    function Offset(e: Event): int { e.offset(data) }
  }

  function At(p: TimePoint, m: Model): int
  {
    match p
    case Epoch => 0
    case TimeOf(id) => m.time(id)
    case SupOf(id) => m.sup(id)
  }

  predicate Holds(c: Constraint, m: Model)
  {
    match c
    case Fact(p) => p(m.data)
    case Before(a, b) => At(a, m) < At(b, m)
    case NotAfter(a, b) => At(a, m) <= At(b, m)
    case Same(a, b) => At(a, m) == At(b, m)
    case FlowsTo(f, s, t) => m.source(f, t) == s
    case DistinctTimes(ids) => forall i, j :: 0 <= i < j < |ids| ==> m.time(ids[i]) != m.time(ids[j])
    case DistinctSources(f, ids) => forall i, j :: 0 <= i < j < |ids| ==> m.source(f, ids[i]) != m.source(f, ids[j])
    case Not(d) => !Holds(d, m)
    case And(d, e) => Holds(d, m) && Holds(e, m)
    case Or(d, e) => Holds(d, m) || Holds(e, m)
    case Implies(d, e) => Holds(d, m) ==> Holds(e, m)
  }

  ghost predicate AllHold(cs: seq<Constraint>, m: Model)
  {
    forall i :: 0 <= i < |cs| ==> Holds(cs[i], m)
  }

  function Ids(es: seq<Event>): (ids: seq<EventId>)
    ensures |ids| == |es| && forall i :: 0 <= i < |es| ==> ids[i] == es[i].id
  {
    seq(|es|, i requires 0 <= i < |es| => es[i].id)
  }

  // ---- What the encodings mean -------------------------------------------------

  /** Some event of the list flows to `target`. */
  ghost predicate HasSource(flow: Flow, es: seq<Event>, target: Event, m: Model)
  {
    exists e :: e in es && m.Flows(flow, e, target)
  }

  /** Events of a thread happen in program order. */
  ghost predicate ThreadOrder(t: seq<EventId>, m: Model)
  {
    forall i :: 0 <= i < |t| - 1 ==> m.time(t[i]) < m.time(t[i + 1])
  }

  ghost predicate AllThreadOrder(threads: seq<seq<EventId>>, m: Model)
  {
    forall i :: 0 <= i < |threads| ==> ThreadOrder(threads[i], m)
  }

  /** The quadratic read-from encoding for one read: `sup` is the time of the write
      read from, and the supremum of the times of all enabled earlier writes. */
  ghost predicate ReadsSup(r: Event, writes: seq<Event>, m: Model)
  {
    && (forall w :: w in writes ==> ReadsSupFrom(r, w, m))
    && (m.Guard(r) ==> HasSource(ReadFrom, writes, r, m))
  }

  ghost predicate ReadsSupFrom(r: Event, w: Event, m: Model)
  {
    && (m.Flows(ReadFrom, w, r) ==>
          && m.Guard(r) && m.Guard(w) && m.Time(w) <= m.Time(r)
          && m.Value(w) == m.Value(r) && m.Sup(r) == m.Time(w))
    && (m.Time(w) <= m.Time(r) && m.Guard(w) ==> m.Time(w) <= m.Sup(r))
  }

  /** The cubic read-from encoding for one read. */
  ghost predicate ReadsCubic(r: Event, writes: seq<Event>, m: Model)
  {
    && (forall w :: w in writes && m.Flows(ReadFrom, w, r) ==>
          m.Guard(r) && m.Guard(w) && m.Time(w) < m.Time(r) && m.Value(w) == m.Value(r))
    && (m.Guard(r) ==> HasSource(ReadFrom, writes, r, m))
  }

  /** The cubic from-read encoding for one read; pairs of writes by position. */
  ghost predicate FromRead(r: Event, writes: seq<Event>, m: Model)
  {
    forall i, j :: 0 <= i < |writes| && 0 <= j < |writes| && i != j ==> FromReadPair(r, writes[i], writes[j], m)
  }

  ghost predicate FromReadPair(r: Event, w: Event, w': Event, m: Model)
  {
    m.Flows(ReadFrom, w, r) && m.Guard(w') && m.Time(w) < m.Time(w') ==> m.Time(r) < m.Time(w')
  }

  /** Events of a list happen at pairwise different times. */
  ghost predicate Serialized(es: seq<Event>, m: Model)
  {
    forall i, j :: 0 <= i < j < |es| ==> m.Time(es[i]) != m.Time(es[j])
  }

  /** Serialized events are told apart by their times. */
  lemma SerializedTimes(es: seq<Event>, m: Model, e: Event, f: Event)
    requires Serialized(es, m) && e in es && f in es && m.Time(e) == m.Time(f)
    ensures e == f
  {
    var i :| 0 <= i < |es| && es[i] == e;
    var j :| 0 <= j < |es| && es[j] == f;
  }

  ghost predicate SupReads(a: EventKinds, m: Model)
  {
    forall r :: r in a.readEvents ==> ReadsSup(r, a.writeEvents, m)
  }

  ghost predicate CubicReads(a: EventKinds, m: Model)
  {
    forall r :: r in a.readEvents ==> ReadsCubic(r, a.writeEvents, m)
  }

  ghost predicate FromReads(a: EventKinds, m: Model)
  {
    forall r :: r in a.readEvents ==> FromRead(r, a.writeEvents, m)
  }

  ghost predicate QuadraticMemory(index: seq<EventKinds>, m: Model)
  {
    forall a :: a in index ==> SupReads(a, m) && Serialized(a.writeEvents, m)
  }

  ghost predicate CubicMemory(index: seq<EventKinds>, m: Model)
  {
    forall a :: a in index ==> CubicReads(a, m) && FromReads(a, m) && Serialized(a.writeEvents, m)
  }

  /** Each pop takes an enabled earlier push of the same value. */
  ghost predicate PopsFrom(pop: Event, pushes: seq<Event>, m: Model)
  {
    && (forall push :: push in pushes && m.Flows(PopFrom, push, pop) ==>
          m.Time(push) < m.Time(pop) && m.Guard(pop) && m.Guard(push) && m.Value(push) == m.Value(pop))
    && HasSource(PopFrom, pushes, pop, m)
  }

  ghost predicate PopsInjective(pops: seq<Event>, m: Model)
  {
    forall i, j :: 0 <= i < j < |pops| ==> m.source(PopFrom, pops[i].id) != m.source(PopFrom, pops[j].id)
  }

  /** A later push below the time of the pop has been popped before. */
  ghost predicate LifoOrder(push: Event, push': Event, pop: Event, pops: seq<Event>, m: Model)
  {
    m.Flows(PopFrom, push, pop) && m.Time(push) < m.Time(push') < m.Time(pop) ==>
      && (forall pop' :: pop' in pops && m.Flows(PopFrom, push', pop') ==> m.Time(pop') < m.Time(pop))
      && (m.Guard(push') ==> HasTarget(PopFrom, push', pops, m))
  }

  ghost predicate HasTarget(flow: Flow, source: Event, es: seq<Event>, m: Model)
  {
    exists e :: e in es && m.Flows(flow, source, e)
  }

  ghost predicate AllPopsFrom(a: EventKinds, m: Model)
  {
    forall pop :: pop in a.pops ==> PopsFrom(pop, a.pushes, m)
  }

  ghost predicate AllLifo(a: EventKinds, m: Model)
  {
    forall push, push', pop :: push in a.pushes && push' in a.pushes && pop in a.pops ==>
      LifoOrder(push, push', pop, a.pops, m)
  }

  ghost predicate StackApi(index: seq<EventKinds>, m: Model)
  {
    forall a :: a in index ==> AllPopsFrom(a, m) && PopsInjective(a.pops, m) && AllLifo(a, m)
  }

  /** Each load takes an enabled earlier store to its offset, or else zero provided
      it precedes every store to its offset. */
  ghost predicate LoadsFrom(ld: Event, stores: seq<Event>, m: Model)
  {
    && (forall s :: s in stores && m.Flows(LoadFrom, s, ld) ==>
          && m.Guard(s) && m.Guard(ld) && m.Time(s) < m.Time(ld)
          && m.Value(s) == m.Value(ld) && m.Offset(s) == m.Offset(ld))
    && (!HasSource(LoadFrom, stores, ld, m) ==>
          && m.Guard(ld) && m.Value(ld) == 0
          && (forall s :: s in stores && m.Offset(s) == m.Offset(ld) ==> m.Time(ld) < m.Time(s)))
  }

  ghost predicate FromLoad(ld: Event, stores: seq<Event>, m: Model)
  {
    forall i, j :: 0 <= i < |stores| && 0 <= j < |stores| && i != j ==> FromLoadPair(ld, stores[i], stores[j], m)
  }

  ghost predicate FromLoadPair(ld: Event, s: Event, s': Event, m: Model)
  {
    m.Flows(LoadFrom, s, ld) && m.Time(s) < m.Time(s') && m.Offset(s) == m.Offset(s') && m.Guard(s') ==>
      m.Time(ld) < m.Time(s')
  }

  ghost predicate AllLoadsFrom(a: EventKinds, m: Model)
  {
    forall ld :: ld in a.loads ==> LoadsFrom(ld, a.stores, m)
  }

  ghost predicate AllFromLoad(a: EventKinds, m: Model)
  {
    forall ld :: ld in a.loads ==> FromLoad(ld, a.stores, m)
  }

  ghost predicate ArrayApi(index: seq<EventKinds>, m: Model)
  {
    forall a :: a in index ==> AllLoadsFrom(a, m) && AllFromLoad(a, m) && Serialized(a.stores, m)
  }
}
