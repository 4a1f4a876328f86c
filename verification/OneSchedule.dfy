/** One schedule for memory, stacks and arrays: the constraints of the whole encoding have a
    model exactly if one interleaving of the threads lets all reads, pops and loads find
    their values. */
module OneSchedule {
  import opened Events
  import opened Sorting
  import opened Encoding
  import opened Interleaving
  import opened TieBreaking
  import Stacks = StackExactness
  import opened StackTies
  import Arrays = ArrayExactness

  datatype Role = Read | Write | Popped | Pushed | Loaded | Stored

  function Of(a: EventKinds, role: Role): seq<Event>
  {
    match role
    case Read => a.readEvents
    case Write => a.writeEvents
    case Popped => a.pops
    case Pushed => a.pushes
    case Loaded => a.loads
    case Stored => a.stores
  }

  ghost predicate Occurs(trace: Trace, a: EventKinds, role: Role, e: Event)
  {
    a in trace.index && e in Of(a, role)
  }

  /** The tracer gives every event a new identifier, files it once, and puts it into a
      thread. */
  ghost predicate Identified(trace: Trace)
  {
    && (forall a, b, role, role', e, f :: Occurs(trace, a, role, e) && Occurs(trace, b, role', f) && e.id == f.id ==>
          a == b && role == role' && e == f)
    && (forall a, role :: a in trace.index ==> NoDuplicates(Of(a, role)))
    && (forall a, role, e :: Occurs(trace, a, role, e) ==> e.id in ThreadIds(trace.threads))
  }

  /** Events at their positions in the schedule, with nothing said about flow. */
  ghost function InTurn(schedule: seq<EventId>, data: Data): Model
  {
    Model(data, Ranks(schedule), (id: EventId) => 1, (flow: Flow, id: EventId) => -1)
  }

  /** The operations of one stack, in the order of the schedule, let each enabled pop find its
      value on top. */
  ghost predicate StackRuns(a: EventKinds, schedule: seq<EventId>, data: Data)
  {
    var m := InTurn(schedule, data);
    Serialized(a.pushes + a.pops, m) && Stacks.Plain(Stacks.TimeOrdered(a, m), data).Stack?
  }

  /** The operations of one array, in the order of the schedule, let each enabled load find its
      value. */
  ghost predicate ArrayRuns(a: EventKinds, schedule: seq<EventId>, data: Data)
  {
    Arrays.ArrayRuns(a, InTurn(schedule, data))
  }

  /** In this schedule each enabled read finds its value in memory, each enabled pop finds its
      value on top of its stack, and each enabled load finds its value in its array. */
  ghost predicate RunsTogether(trace: Trace, log: map<EventId, Access>, schedule: seq<EventId>, data: Data)
  {
    && IsRun(trace, log, schedule, data)
    && (forall a :: a in trace.index ==> StackRuns(a, schedule, data))
    && (forall a :: a in trace.index ==> ArrayRuns(a, schedule, data))
  }

  /** What the encoding asks for beyond a run: no pop and no load is disabled ... */
  ghost predicate NothingDisabled(trace: Trace, data: Data)
  {
    forall a :: a in trace.index ==> Stacks.PopsEnabled(a, data) && Arrays.LoadsEnabled(a, data)
  }

  /** ... and no load comes after a disabled store to its offset without an enabled one. */
  ghost predicate AllClear(trace: Trace, schedule: seq<EventId>, data: Data)
  {
    forall a :: a in trace.index ==> Arrays.LoadsClear(a, InTurn(schedule, data))
  }

  ghost predicate Encoded(trace: Trace, m: Model)
  {
    && AllThreadOrder(trace.threads, m) && QuadraticMemory(trace.index, m)
    && StackApi(trace.index, m) && ArrayApi(trace.index, m)
  }

  // ---- From assignments to schedules -----------------------------------------------------

  ghost predicate HasRole(trace: Trace, role: Role, id: EventId)
  {
    exists a, e :: Occurs(trace, a, role, e) && e.id == id
  }

  ghost predicate TakenBy(trace: Trace, m: Model, id: EventId, pop: EventId)
  {
    exists a, push, e :: Occurs(trace, a, Pushed, push) && Occurs(trace, a, Popped, e)
      && push.id == id && e.id == pop && m.Flows(PopFrom, push, e)
  }

  ghost function TraceTies(trace: Trace, m: Model): Ties
  {
    Ties((id: EventId) => HasRole(trace, Read, id) || HasRole(trace, Pushed, id),
         (id: EventId) => HasRole(trace, Popped, id),
         (id: EventId) =>
           if exists pop: EventId :: TakenBy(trace, m, id, pop)
           then (var pop: EventId :| TakenBy(trace, m, id, pop); pop) else -1)
  }

  /** All events of the trace by time; simultaneous ones so that memory, stacks and arrays
      run. */
  ghost function Whole(trace: Trace, m: Model): seq<EventId>
  {
    Ordering(ThreadIds(trace.threads), m.time, TraceTies(trace, m))
  }

  lemma OneRole(trace: Trace, a: EventKinds, role: Role, e: Event, role': Role)
    requires Identified(trace) && Occurs(trace, a, role, e)
    ensures HasRole(trace, role', e.id) <==> role' == role
  {
    if HasRole(trace, role', e.id) {
      var b, f :| Occurs(trace, b, role', f) && f.id == e.id;
    }
  }

  lemma OneTaking(trace: Trace, m: Model, a: EventKinds, push: Event, id: EventId)
    requires Identified(trace) && Occurs(trace, a, Pushed, push) && TakenBy(trace, m, push.id, id)
    ensures IsTaken(a, m, push, id)
  {
    var b, f, e :| Occurs(trace, b, Pushed, f) && Occurs(trace, b, Popped, e)
      && f.id == push.id && e.id == id && m.Flows(PopFrom, f, e);
    assert b == a && f == push;
  }

  lemma TakenOnce(trace: Trace, m: Model, a: EventKinds, push: Event, pop: Event)
    requires Identified(trace) && a in trace.index && PopsInjective(a.pops, m)
    requires push in a.pushes && pop in a.pops && m.Flows(PopFrom, push, pop)
    ensures TraceTies(trace, m).taker(push.id) == pop.id
  {
    assert Occurs(trace, a, Pushed, push) && Occurs(trace, a, Popped, pop);
    assert TakenBy(trace, m, push.id, pop.id);
    forall id | TakenBy(trace, m, push.id, id) ensures id == pop.id {
      OneTaking(trace, m, a, push, id);
      var e :| e in a.pops && e.id == id && m.Flows(PopFrom, push, e);
      OneTaker(a, m, push, e, pop);
    }
  }

  lemma TraceTiesFit(trace: Trace, m: Model, a: EventKinds)
    requires Identified(trace) && a in trace.index && PopsInjective(a.pops, m)
    ensures Fits(a, m, TraceTies(trace, m))
  {
    var ties := TraceTies(trace, m);
    forall e | e in a.pops ensures ties.isPop(e.id) && !ties.late(e.id) {
      PopTies(trace, m, a, e);
    }
    forall e | e in a.pushes ensures ties.late(e.id) && !ties.isPop(e.id) {
      PushTies(trace, m, a, e);
    }
    forall push, pop | push in a.pushes && pop in a.pops && m.Flows(PopFrom, push, pop)
      ensures ties.taker(push.id) == pop.id
    {
      TakenOnce(trace, m, a, push, pop);
    }
    forall push | push in a.pushes && ties.taker(push.id) >= 0 ensures IsTaken(a, m, push, ties.taker(push.id)) {
      assert Occurs(trace, a, Pushed, push);
      OneTaking(trace, m, a, push, ties.taker(push.id));
    }
  }

  lemma PopTies(trace: Trace, m: Model, a: EventKinds, e: Event)
    requires Identified(trace) && a in trace.index && e in a.pops
    ensures TraceTies(trace, m).isPop(e.id) && !TraceTies(trace, m).late(e.id)
  {
    assert Occurs(trace, a, Popped, e);
    OneRole(trace, a, Popped, e, Popped);
    OneRole(trace, a, Popped, e, Pushed);
    OneRole(trace, a, Popped, e, Read);
  }

  lemma PushTies(trace: Trace, m: Model, a: EventKinds, e: Event)
    requires Identified(trace) && a in trace.index && e in a.pushes
    ensures TraceTies(trace, m).late(e.id) && !TraceTies(trace, m).isPop(e.id)
  {
    assert Occurs(trace, a, Pushed, e);
    OneRole(trace, a, Pushed, e, Popped);
    OneRole(trace, a, Pushed, e, Pushed);
  }

  lemma StackIdentified(trace: Trace, a: EventKinds)
    requires Identified(trace) && a in trace.index
    ensures OwnIds(a) && Within(a, ThreadIds(trace.threads))
  {
    var es := a.pushes + a.pops;
    assert NoDuplicates(Of(a, Pushed)) && NoDuplicates(Of(a, Popped));
    forall i, j | 0 <= i < j < |es| ensures es[i].id != es[j].id {
      assert Occurs(trace, a, if i < |a.pushes| then Pushed else Popped, es[i]);
      assert Occurs(trace, a, if j < |a.pushes| then Pushed else Popped, es[j]);
    }
    forall e | OnStack(a, e) ensures e.id in ThreadIds(trace.threads) {
      assert Occurs(trace, a, if e in a.pushes then Pushed else Popped, e);
    }
  }

  lemma StackInWhole(trace: Trace, m: Model, a: EventKinds)
    requires Identified(trace) && a in trace.index && Stacks.StackEncoded(a, m)
    ensures StackRuns(a, Whole(trace, m), m.data)
  {
    StackIdentified(trace, a);
    TraceTiesFit(trace, m, a);
    RankedBreaksTies(a, m, ThreadIds(trace.threads), TraceTies(trace, m));
    EncodedRuns(a, m, Ranked(Whole(trace, m), m));
    FlowDropped(a, Whole(trace, m), m);
  }

  lemma FlowDropped(a: EventKinds, schedule: seq<EventId>, m: Model)
    requires Serialized(a.pushes + a.pops, Ranked(schedule, m)) && RunsOnStack(a, Ranked(schedule, m))
    ensures StackRuns(a, schedule, m.data)
  {
    var ranked, turn := Ranked(schedule, m), InTurn(schedule, m.data);
    assert Serialized(a.pushes + a.pops, turn) by {
      assert forall e :: turn.Time(e) == ranked.Time(e);
    }
    assert Stacks.TimeOrdered(a, turn) == Stacks.TimeOrdered(a, ranked);
    Stacks.FlowForgotten(Stacks.TimeOrdered(a, ranked), ranked);
  }

  /** The times of loads and stores may be refined. */
  lemma ArrayRefined(a: EventKinds, m: Model, m': Model)
    requires Arrays.ArrayEncoded(a, m) && m'.data == m.data && m'.source == m.source
    requires forall e, f ::
      (e in a.loads || e in a.stores) && (f in a.loads || f in a.stores) && m.Time(e) < m.Time(f) ==>
      m'.Time(e) < m'.Time(f)
    ensures Arrays.ArrayEncoded(a, m')
  {
    forall ld | ld in a.loads ensures LoadsFrom(ld, a.stores, m') && FromLoad(ld, a.stores, m') {
      assert LoadsFrom(ld, a.stores, m) && FromLoad(ld, a.stores, m);
      assert HasSource(LoadFrom, a.stores, ld, m) ==> HasSource(LoadFrom, a.stores, ld, m');
      forall i, j | 0 <= i < |a.stores| && 0 <= j < |a.stores| && i != j
        ensures FromLoadPair(ld, a.stores[i], a.stores[j], m')
      {
        assert FromLoadPair(ld, a.stores[i], a.stores[j], m);
        assert m.Time(a.stores[i]) != m.Time(a.stores[j]);
      }
    }
    forall i, j | 0 <= i < j < |a.stores| ensures m'.Time(a.stores[i]) != m'.Time(a.stores[j]) {
      assert m.Time(a.stores[i]) != m.Time(a.stores[j]);
    }
  }

  lemma ArrayIdentified(trace: Trace, a: EventKinds, e: Event)
    requires Identified(trace) && a in trace.index && (e in a.loads || e in a.stores)
    ensures e.id in ThreadIds(trace.threads)
  {
    assert Occurs(trace, a, if e in a.loads then Loaded else Stored, e);
  }

  lemma ArrayOrder(trace: Trace, m: Model, a: EventKinds, e: Event, f: Event)
    requires Identified(trace) && a in trace.index
    requires (e in a.loads || e in a.stores) && (f in a.loads || f in a.stores) && m.Time(e) < m.Time(f)
    ensures Ranked(Whole(trace, m), m).Time(e) < Ranked(Whole(trace, m), m).Time(f)
  {
    ArrayIdentified(trace, a, e);
    ArrayIdentified(trace, a, f);
    SoonerFirst(ThreadIds(trace.threads), m.time, TraceTies(trace, m), e.id, f.id);
  }

  lemma ArrayInWhole(trace: Trace, m: Model, a: EventKinds)
    requires Identified(trace) && a in trace.index && Arrays.ArrayEncoded(a, m)
    ensures ArrayRuns(a, Whole(trace, m), m.data)
    ensures Arrays.LoadsEnabled(a, m.data) && Arrays.LoadsClear(a, InTurn(Whole(trace, m), m.data))
  {
    var m' := Ranked(Whole(trace, m), m);
    forall e, f | (e in a.loads || e in a.stores) && (f in a.loads || f in a.stores) && m.Time(e) < m.Time(f)
      ensures m'.Time(e) < m'.Time(f)
    {
      ArrayOrder(trace, m, a, e, f);
    }
    ArrayRefined(a, m, m');
    Arrays.ArrayEncodingSound(a, m');
    Arrays.FlowIrrelevant(a, m', InTurn(Whole(trace, m), m.data));
  }

  /** The schedule goes by time, writes before reads. */
  lemma WholeRespects(trace: Trace, log: map<EventId, Access>, m: Model)
    requires Filed(trace, log) && Identified(trace)
    ensures Respects(trace, log, m, Whole(trace, m))
  {
    var schedule := Whole(trace, m);
    forall i, j | 0 <= i < j < |schedule| ensures m.time(schedule[i]) <= m.time(schedule[j]) {
      WholeByTime(trace, m, i, j);
    }
    forall i, j | 0 <= i < j < |schedule| && schedule[i] in log && schedule[j] in log
      ensures Key(log, m)(schedule[i]) <= Key(log, m)(schedule[j])
    {
      WholeByTime(trace, m, i, j);
      AccessTies(trace, log, m, schedule[i]);
      AccessTies(trace, log, m, schedule[j]);
    }
  }

  lemma WholeByTime(trace: Trace, m: Model, i: nat, j: nat)
    requires i < j < |Whole(trace, m)|
    ensures var x, y, ties := Whole(trace, m)[i], Whole(trace, m)[j], TraceTies(trace, m);
      m.time(x) <= m.time(y) && (m.time(x) == m.time(y) && ties.late(x) ==> ties.late(y))
  {
    var x, y, ties := Whole(trace, m)[i], Whole(trace, m)[j], TraceTies(trace, m);
    var base := Base(ThreadIds(trace.threads), m.time);
    assert TieKey(base, m.time, ties)(x) <= TieKey(base, m.time, ties)(y);
    if Sooner(base, m.time, ties, y, x) {
      SoonerKey(base, m.time, ties, y, x);
    }
  }

  lemma AccessTies(trace: Trace, log: map<EventId, Access>, m: Model, id: EventId)
    requires Filed(trace, log) && Identified(trace) && id in log
    ensures TraceTies(trace, m).late(id) <==> !log[id].isWrite
  {
    var a :| InGroup(trace, log[id], a);
    var role := if log[id].isWrite then Write else Read;
    assert Occurs(trace, a, role, log[id].e);
    OneRole(trace, a, role, log[id].e, Read);
    OneRole(trace, a, role, log[id].e, Pushed);
  }

  /** Every assignment gives one schedule in which everything runs. */
  lemma AssignmentGivesSchedule(trace: Trace, log: map<EventId, Access>, m: Model)
    requires Filed(trace, log) && Identified(trace) && Encoded(trace, m)
    ensures RunsTogether(trace, log, Whole(trace, m), m.data)
    ensures NothingDisabled(trace, m.data) && AllClear(trace, Whole(trace, m), m.data)
  {
    WholeRespects(trace, log, m);
    AssignmentGivesRun(trace, log, m, Whole(trace, m));
    forall a | a in trace.index
      ensures StackRuns(a, Whole(trace, m), m.data) && Stacks.PopsEnabled(a, m.data)
    {
      StackInWhole(trace, m, a);
      Stacks.EncodedEnabled(a, m);
    }
    forall a | a in trace.index
      ensures ArrayRuns(a, Whole(trace, m), m.data) && Arrays.LoadsEnabled(a, m.data)
      ensures Arrays.LoadsClear(a, InTurn(Whole(trace, m), m.data))
    {
      ArrayInWhole(trace, m, a);
    }
  }

  // ---- From schedules to assignments -----------------------------------------------------

  /** Sources for the loads of `a` that satisfy the encoding, if there are any. */
  ghost function LoadSources(a: EventKinds, m: Model): (Flow, EventId) -> int
  {
    if exists m': Model :: m' == m.(source := m'.source) && Arrays.ArrayEncoded(a, m') then
      (var m': Model :| m' == m.(source := m'.source) && Arrays.ArrayEncoded(a, m'); m'.source)
    else m.source
  }

  /** Sources for the pops of `a`: whatever is on top. */
  ghost function PopSources(a: EventKinds, m: Model): EventId -> int
  {
    if Serialized(a.pushes + a.pops, m) then Stacks.TopSources(Stacks.TimeOrdered(a, m), m.data)
    else (id: EventId) => -1
  }

  ghost predicate RoleIn(trace: Trace, a: EventKinds, role: Role, id: EventId)
  {
    exists e :: Occurs(trace, a, role, e) && e.id == id
  }

  /** Where an event with this role is filed. */
  ghost function GroupOf(trace: Trace, role: Role, id: EventId): (a: EventKinds)
    requires exists a :: RoleIn(trace, a, role, id)
    ensures RoleIn(trace, a, role, id)
  {
    var a :| RoleIn(trace, a, role, id);
    a
  }

  lemma OneGroup(trace: Trace, a: EventKinds, role: Role, e: Event)
    requires Identified(trace) && Occurs(trace, a, role, e)
    ensures RoleIn(trace, a, role, e.id) && GroupOf(trace, role, e.id) == a
  {
    assert RoleIn(trace, a, role, e.id);
    var b := GroupOf(trace, role, e.id);
    var f :| Occurs(trace, b, role, f) && f.id == e.id;
  }

  /** What flows into an event in a schedule: as in a run of memory for reads, from the top of
      its stack for pops, and as chosen for its array for loads. */
  ghost function JointSource(trace: Trace, log: map<EventId, Access>, schedule: seq<EventId>, data: Data): (Flow,
                             EventId) -> int
  {
    (flow: Flow, id: EventId) =>
      match flow
      case ReadFrom => RunModel(log, schedule, data).source(ReadFrom, id)
      case PopFrom =>
        if exists a ::
          RoleIn(trace, a, Popped, id) then PopSources(GroupOf(trace, Popped, id), InTurn(schedule, data))(id)
        else -1
      case LoadFrom =>
        if exists a :: RoleIn(trace, a, Loaded, id)
        then LoadSources(GroupOf(trace, Loaded, id), InTurn(schedule, data))(LoadFrom, id)
        else -1
  }

  ghost function JointModel(trace: Trace, log: map<EventId, Access>, schedule: seq<EventId>, data: Data): Model
  {
    RunModel(log, schedule, data).(source := JointSource(trace, log, schedule, data))
  }

  lemma MemorySame(index: seq<EventKinds>, m: Model, m': Model)
    requires QuadraticMemory(index, m) && m' == m.(source := m'.source)
    requires forall id :: m'.source(ReadFrom, id) == m.source(ReadFrom, id)
    ensures QuadraticMemory(index, m')
  {
    forall a, r | a in index && r in a.readEvents ensures ReadsSup(r, a.writeEvents, m') {
      assert SupReads(a, m) && ReadsSup(r, a.writeEvents, m);
      assert HasSource(ReadFrom, a.writeEvents, r, m) ==> HasSource(ReadFrom, a.writeEvents, r, m');
      assert forall w :: w in a.writeEvents ==> ReadsSupFrom(r, w, m);
    }
  }

  lemma ArraySame(a: EventKinds, m: Model, m': Model)
    requires Arrays.ArrayEncoded(a, m) && m'.data == m.data && m'.time == m.time
    requires forall ld :: ld in a.loads ==> m'.source(LoadFrom, ld.id) == m.source(LoadFrom, ld.id)
    ensures Arrays.ArrayEncoded(a, m')
  {
    forall ld | ld in a.loads ensures LoadsFrom(ld, a.stores, m') && FromLoad(ld, a.stores, m') {
      assert LoadsFrom(ld, a.stores, m) && FromLoad(ld, a.stores, m);
      assert HasSource(LoadFrom, a.stores, ld, m) ==> HasSource(LoadFrom, a.stores, ld, m');
      forall i, j | 0 <= i < |a.stores| && 0 <= j < |a.stores| && i != j
        ensures FromLoadPair(ld, a.stores[i], a.stores[j], m')
      {
        assert FromLoadPair(ld, a.stores[i], a.stores[j], m);
      }
    }
    assert Serialized(a.stores, m');
  }

  lemma PopJoins(trace: Trace, log: map<EventId, Access>, schedule: seq<EventId>, data: Data, a: EventKinds, pop: Event)
    requires Identified(trace) && a in trace.index && pop in a.pops
    ensures JointSource(trace, log, schedule, data)(PopFrom, pop.id) == PopSources(a, InTurn(schedule, data))(pop.id)
  {
    assert Occurs(trace, a, Popped, pop);
    OneGroup(trace, a, Popped, pop);
  }

  lemma LoadJoins(trace: Trace, log: map<EventId, Access>, schedule: seq<EventId>, data: Data, a: EventKinds, ld: Event)
    requires Identified(trace) && a in trace.index && ld in a.loads
    ensures JointSource(trace, log, schedule, data)(LoadFrom, ld.id)
         == LoadSources(a, InTurn(schedule, data))(LoadFrom, ld.id)
  {
    assert Occurs(trace, a, Loaded, ld);
    OneGroup(trace, a, Loaded, ld);
  }

  lemma TopsEncoded(a: EventKinds, turn: Model, m: Model)
    requires m.time == turn.time && m.data == turn.data && Serialized(a.pushes + a.pops, turn)
    requires Stacks.Plain(Stacks.TimeOrdered(a, turn), turn.data).Stack? && Stacks.PopsEnabled(a, turn.data)
    requires forall pop :: pop in a.pops ==> m.source(PopFrom, pop.id) == PopSources(a, turn)(pop.id)
    ensures Stacks.StackEncoded(a, m)
  {
    assert Serialized(a.pushes + a.pops, m) by {
      assert forall e :: m.Time(e) == turn.Time(e);
    }
    var ops := Stacks.TimeOrdered(a, turn);
    assert Stacks.TimeOrdered(a, m) == ops;
    Stacks.TopsFlow(ops, a, m);
    Stacks.StackEncodingExact(a, m);
  }

  lemma StackJoins(trace: Trace, log: map<EventId, Access>, schedule: seq<EventId>, data: Data, a: EventKinds)
    requires Identified(trace) && a in trace.index && StackRuns(a, schedule, data) && Stacks.PopsEnabled(a, data)
    ensures Stacks.StackEncoded(a, JointModel(trace, log, schedule, data))
  {
    forall pop | pop in a.pops
      ensures JointSource(trace, log, schedule, data)(PopFrom, pop.id) == PopSources(a, InTurn(schedule, data))(pop.id)
    {
      PopJoins(trace, log, schedule, data, a, pop);
    }
    TopsEncoded(a, InTurn(schedule, data), JointModel(trace, log, schedule, data));
  }

  lemma StoresSerialized(trace: Trace, schedule: seq<EventId>, data: Data, a: EventKinds)
    requires Identified(trace) && a in trace.index
    requires forall id :: id in ThreadIds(trace.threads) ==> id in schedule
    ensures Serialized(a.stores, InTurn(schedule, data)) && Arrays.DistinctLoads(a)
  {
    assert NoDuplicates(Of(a, Stored));
    forall i, j | 0 <= i < j < |a.stores| ensures Ranks(schedule)(a.stores[i].id) != Ranks(schedule)(a.stores[j].id) {
      assert Occurs(trace, a, Stored, a.stores[i]) && Occurs(trace, a, Stored, a.stores[j]);
      RanksDiffer(schedule, a.stores[i].id, a.stores[j].id);
    }
    forall e, f | e in a.loads && f in a.loads && e.id == f.id ensures e == f {
      assert Occurs(trace, a, Loaded, e) && Occurs(trace, a, Loaded, f);
    }
  }

  lemma SourcesEncoded(a: EventKinds, turn: Model, m: Model)
    requires m.time == turn.time && m.data == turn.data
    requires Serialized(a.stores, turn) && Arrays.DistinctLoads(a)
    requires Arrays.ArrayRuns(a, turn) && Arrays.LoadsEnabled(a, turn.data) && Arrays.LoadsClear(a, turn)
    requires forall ld :: ld in a.loads ==> m.source(LoadFrom, ld.id) == LoadSources(a, turn)(LoadFrom, ld.id)
    ensures Arrays.ArrayEncoded(a, m)
  {
    Arrays.ArrayEncodingExact(a, turn);
    var chosen := turn.(source := LoadSources(a, turn));
    assert Arrays.ArrayEncoded(a, chosen);
    ArraySame(a, chosen, m);
  }

  lemma ArrayJoins(trace: Trace, log: map<EventId, Access>, schedule: seq<EventId>, data: Data, a: EventKinds)
    requires Identified(trace) && a in trace.index && ArrayRuns(a, schedule, data)
    requires Arrays.LoadsEnabled(a, data) && Arrays.LoadsClear(a, InTurn(schedule, data))
    requires forall id :: id in ThreadIds(trace.threads) ==> id in schedule
    ensures Arrays.ArrayEncoded(a, JointModel(trace, log, schedule, data))
  {
    StoresSerialized(trace, schedule, data, a);
    forall ld | ld in a.loads
      ensures JointSource(trace, log, schedule, data)(LoadFrom, ld.id)
           == LoadSources(a, InTurn(schedule, data))(LoadFrom, ld.id)
    {
      LoadJoins(trace, log, schedule, data, a, ld);
    }
    SourcesEncoded(a, InTurn(schedule, data), JointModel(trace, log, schedule, data));
  }

  /** Every such schedule is found by the encoding. */
  lemma ScheduleGivesAssignment(trace: Trace, log: map<EventId, Access>, schedule: seq<EventId>, data: Data)
    requires Filed(trace, log) && Identified(trace) && RunsTogether(trace, log, schedule, data)
    requires NothingDisabled(trace, data) && AllClear(trace, schedule, data)
    ensures var m := JointModel(trace, log, schedule, data);
      m.data == data && Encoded(trace, m) && forall id :: m.time(id) > 0 && m.sup(id) > 0
  {
    var run, joint := RunModel(log, schedule, data), JointModel(trace, log, schedule, data);
    RunGivesAssignment(trace, log, schedule, data);
    MemorySame(trace.index, run, joint);
    assert AllThreadOrder(trace.threads, joint) by {
      assert forall i :: 0 <= i < |trace.threads| ==> ThreadOrder(trace.threads[i], run);
    }
    forall a | a in trace.index ensures Stacks.StackEncoded(a, joint) && Arrays.ArrayEncoded(a, joint) {
      StackJoins(trace, log, schedule, data, a);
      ArrayJoins(trace, log, schedule, data, a);
    }
  }

  // ---- What the encoder hands to the solver ------------------------------------------------

  /** With this data everything runs in one schedule, loads being clear of disabled stores. */
  ghost predicate WholeRunnable(trace: Trace, log: map<EventId, Access>, data: Data)
  {
    exists schedule :: RunsTogether(trace, log, schedule, data) && AllClear(trace, schedule, data)
  }

  ghost predicate EncodedWith(trace: Trace, data: Data)
  {
    exists m: Model :: m.data == data && Encoded(trace, m)
  }

  /** Main result: for given data, the constraints on program order, memory, stacks and
      arrays have a model exactly if one schedule runs them all, no pop and no load is
      disabled, and the loads are clear of disabled stores. */
  lemma EncodedIffRunnable(trace: Trace, log: map<EventId, Access>, data: Data)
    requires Filed(trace, log) && Identified(trace)
    ensures EncodedWith(trace, data) <==> NothingDisabled(trace, data) && WholeRunnable(trace, log, data)
  {
    if EncodedWith(trace, data) {
      var m: Model :| m.data == data && Encoded(trace, m);
      AssignmentGivesSchedule(trace, log, m);
    }
    if NothingDisabled(trace, data) && WholeRunnable(trace, log, data) {
      var schedule :| RunsTogether(trace, log, schedule, data) && AllClear(trace, schedule, data);
      ScheduleGivesAssignment(trace, log, schedule, data);
    }
  }

  /** The same for the contents of the solver after the whole encoding. */
  method EncodeTrace(trace: Trace, ghost log: map<EventId, Access>) returns (solver: seq<Constraint>)
    requires Filed(trace, log) && Identified(trace)
    ensures forall data: Data :: SatisfiableWith(solver, data) <==>
      trace.guard(data) && NothingDisabled(trace, data) && WholeRunnable(trace, log, data)
  {
    var encoder := new Encoder();
    encoder.Encode(trace);
    solver := encoder.solver;
    forall data: Data
      ensures SatisfiableWith(solver, data) <==>
        trace.guard(data) && NothingDisabled(trace, data) && WholeRunnable(trace, log, data)
    {
      EncodedIffRunnable(trace, log, data);
      if trace.guard(data) && NothingDisabled(trace, data) && WholeRunnable(trace, log, data) {
        var schedule :| RunsTogether(trace, log, schedule, data) && AllClear(trace, schedule, data);
        ScheduleGivesAssignment(trace, log, schedule, data);
        assert AllHold(solver, JointModel(trace, log, schedule, data));
      }
    }
  }
}
