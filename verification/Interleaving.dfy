/** The memory encoding describes exactly the interleaved runs of a program. */
module Interleaving {
  import opened Events
  import opened Sorting
  import opened TieBreaking
  import opened Encoding

  /** A read or write event. */
  datatype Access = Access(isWrite: bool, e: Event)

  /** Shared memory: only addresses that have been written have contents. */
  type Memory = map<nat, int>

  /** How the tracer files events: `log` has the accesses by identifier, `index` has
      them by address, and each of them occurs in some thread. */
  ghost predicate Filed(trace: Trace, log: map<EventId, Access>)
  {
    && (forall a, r :: a in trace.index && r in a.readEvents ==> r.id in log && log[r.id] == Access(false, r))
    && (forall a, w :: a in trace.index && w in a.writeEvents ==> w.id in log && log[w.id] == Access(true, w))
    && (forall id :: id in log ==>
          log[id].e.id == id && id in ThreadIds(trace.threads) && exists a :: InGroup(trace, log[id], a))
    && (forall id, id', a, b :: id in log && id' in log && InGroup(trace, log[id], a) && InGroup(trace, log[id'], b) ==>
          (a == b <==> log[id].e.address == log[id'].e.address))
    && (forall a :: a in trace.index ==> NoDuplicates(a.writeEvents))
  }

  ghost predicate InGroup(trace: Trace, x: Access, a: EventKinds)
  {
    a in trace.index && (if x.isWrite then x.e in a.writeEvents else x.e in a.readEvents)
  }

  ghost function ThreadIds(threads: seq<seq<EventId>>): set<EventId>
  {
    set t, id | t in threads && id in t :: id
  }

  /** The contents of memory after the enabled writes of `schedule`, in order. */
  ghost function MemoryAfter(log: map<EventId, Access>, schedule: seq<EventId>, data: Data): Memory
  {
    if schedule == [] then map[]
    else
      var before := MemoryAfter(log, schedule[..|schedule| - 1], data);
      var id := schedule[|schedule| - 1];
      if EnabledWrite(log, id, data) then before[log[id].e.address := log[id].e.term(data)] else before
  }

  ghost predicate EnabledWrite(log: map<EventId, Access>, id: EventId, data: Data)
  {
    id in log && log[id].isWrite && log[id].e.guard(data)
  }

  ghost predicate EnabledRead(log: map<EventId, Access>, id: EventId, data: Data)
  {
    id in log && !log[id].isWrite && log[id].e.guard(data)
  }

  /** `x` comes before `y`. */
  ghost predicate Ordered(schedule: seq<EventId>, x: EventId, y: EventId)
  {
    exists p, q :: 0 <= p < q < |schedule| && schedule[p] == x && schedule[q] == y
  }

  /** One interleaving of the threads: each event happens once, threads are kept in
      program order, and each enabled read finds its value in memory. */
  ghost predicate IsRun(trace: Trace, log: map<EventId, Access>, schedule: seq<EventId>, data: Data)
  {
    && NoDuplicates(schedule)
    && (forall id :: id in schedule <==> id in ThreadIds(trace.threads))
    && (forall t, i :: t in trace.threads && 0 <= i < |t| - 1 ==> Ordered(schedule, t[i], t[i + 1]))
    && (forall k :: 0 <= k < |schedule| && EnabledRead(log, schedule[k], data) ==> ReadsMemory(log, schedule, k, data))
  }

  ghost predicate ReadsMemory(log: map<EventId, Access>, schedule: seq<EventId>, k: nat, data: Data)
    requires k < |schedule| && schedule[k] in log
  {
    var r := log[schedule[k]].e;
    var memory := MemoryAfter(log, schedule[..k], data);
    r.address in memory && memory[r.address] == r.term(data)
  }

  /** Position `j` of the schedule holds the last enabled write to `address` before `k`. */
  ghost predicate LastWrite(log: map<EventId, Access>, schedule: seq<EventId>, k: nat, address: nat, data: Data, j: int)
    requires k <= |schedule|
  {
    && 0 <= j < k && EnabledWrite(log, schedule[j], data) && log[schedule[j]].e.address == address
    && forall i :: j < i < k && EnabledWrite(log, schedule[i], data) ==> log[schedule[i]].e.address != address
  }

  /** Memory holds what the last write put there. */
  lemma {:induction false} MemoryIsLastWrite(log: map<EventId, Access>, schedule: seq<EventId>, k: nat, address: nat,
                                             data: Data)
    requires k <= |schedule|
    ensures var memory := MemoryAfter(log, schedule[..k], data);
      && (address in memory ==> exists j :: LastWrite(log, schedule, k, address, data, j))
      && (forall j :: LastWrite(log, schedule, k, address, data, j) ==>
            address in memory && memory[address] == log[schedule[j]].e.term(data))
  {
    if k > 0 {
      assert schedule[..k][..k - 1] == schedule[..k - 1];
      MemoryIsLastWrite(log, schedule, k - 1, address, data);
      var id := schedule[k - 1];
      var memory := MemoryAfter(log, schedule[..k], data);
      if EnabledWrite(log, id, data) && log[id].e.address == address {
        assert LastWrite(log, schedule, k, address, data, k - 1);
      } else {
        StillLast(log, schedule, k, address, data);
        if address in memory {
          assert address in MemoryAfter(log, schedule[..k - 1], data);
          var j :| LastWrite(log, schedule, k - 1, address, data, j);
          assert LastWrite(log, schedule, k, address, data, j);
        }
      }
    }
  }

  lemma StillLast(log: map<EventId, Access>, schedule: seq<EventId>, k: nat, address: nat, data: Data)
    requires 0 < k <= |schedule|
    requires !(EnabledWrite(log, schedule[k - 1], data) && log[schedule[k - 1]].e.address == address)
    ensures forall j :: LastWrite(log, schedule, k, address, data, j) <==>
      LastWrite(log, schedule, k - 1, address, data, j)
  {
  }

  // ---- From assignments to runs ------------------------------------------------------

  /** Sorting key: by time, writes before reads at the same time. */
  ghost function Key(log: map<EventId, Access>, m: Model): EventId -> int
  {
    (id: EventId) => 2 * m.time(id) + (if id in log && !log[id].isWrite then 1 else 0)
  }

  ghost function Schedule(trace: Trace, log: map<EventId, Access>, m: Model): seq<EventId>
  {
    Sort(Listing(ThreadIds(trace.threads)), Key(log, m))
  }

  /** All events of the trace, each once, by time; simultaneous writes come before reads,
      and nothing else is said about simultaneous events. */
  ghost predicate Respects(trace: Trace, log: map<EventId, Access>, m: Model, schedule: seq<EventId>)
  {
    && NoDuplicates(schedule) && (forall id :: id in schedule <==> id in ThreadIds(trace.threads))
    && SortedBy(schedule, m.time)
    && forall i, j :: 0 <= i < j < |schedule| && schedule[i] in log && schedule[j] in log ==>
         Key(log, m)(schedule[i]) <= Key(log, m)(schedule[j])
  }

  lemma ScheduleRespects(trace: Trace, log: map<EventId, Access>, m: Model)
    ensures Respects(trace, log, m, Schedule(trace, log, m))
  {
    var schedule := Schedule(trace, log, m);
    forall i, j | 0 <= i < j < |schedule| ensures m.time(schedule[i]) <= m.time(schedule[j]) {
      assert Key(log, m)(schedule[i]) <= Key(log, m)(schedule[j]);
    }
  }

  /** Every assignment that satisfies program order, the quadratic read-from encoding
      and write serialization gives a run with the same data. */
  lemma AssignmentGivesRun(trace: Trace, log: map<EventId, Access>, m: Model, schedule: seq<EventId>)
    requires Filed(trace, log)
    requires AllThreadOrder(trace.threads, m) && QuadraticMemory(trace.index, m)
    requires Respects(trace, log, m, schedule)
    ensures IsRun(trace, log, schedule, m.data)
  {
    forall t, i | t in trace.threads && 0 <= i < |t| - 1 ensures Ordered(schedule, t[i], t[i + 1]) {
      OrderedByTime(trace, log, m, schedule, t, i);
    }
    forall k | 0 <= k < |schedule| && EnabledRead(log, schedule[k], m.data)
      ensures ReadsMemory(log, schedule, k, m.data)
    {
      var r := log[schedule[k]].e;
      var j := SourceIsLast(trace, log, m, schedule, k);
      MemoryIsLastWrite(log, schedule, k, r.address, m.data);
    }
  }

  lemma OrderedByTime(trace: Trace, log: map<EventId, Access>, m: Model, schedule: seq<EventId>, t: seq<EventId>,
                      i: nat)
    requires AllThreadOrder(trace.threads, m) && t in trace.threads && i < |t| - 1
    requires Respects(trace, log, m, schedule)
    ensures Ordered(schedule, t[i], t[i + 1])
  {
    assert ThreadOrder(t, m);
    assert t[i] in t && t[i + 1] in t;
    assert t[i] in ThreadIds(trace.threads) && t[i + 1] in ThreadIds(trace.threads);
    assert t[i] in schedule && t[i + 1] in schedule;
    var p :| 0 <= p < |schedule| && schedule[p] == t[i];
    var q :| 0 <= q < |schedule| && schedule[q] == t[i + 1];
    assert m.time(t[i]) < m.time(t[i + 1]);
  }

  /** Any other enabled write to the address is earlier than `w` or later than the read. */
  ghost predicate LatestWrite(log: map<EventId, Access>, m: Model, id: EventId, w: Event)
    requires id in log
  {
    forall id' {:trigger EnabledWrite(log, id', m.data)} ::
      EnabledWrite(log, id', m.data) && log[id'].e.address == w.address && m.Time(log[id'].e) <= m.Time(log[id].e) ==>
        id' == w.id || m.Time(log[id'].e) < m.Time(w)
  }

  /** A read flows from an enabled write of its value, and no enabled write to the
      same address comes later but still before the read. */
  lemma FlowSource(trace: Trace, log: map<EventId, Access>, m: Model, id: EventId) returns (w: Event)
    requires Filed(trace, log) && QuadraticMemory(trace.index, m) && EnabledRead(log, id, m.data)
    ensures w.id in log && log[w.id] == Access(true, w) && w.address == log[id].e.address
    ensures m.Guard(w) && m.Time(w) <= m.Time(log[id].e) && m.Value(w) == m.Value(log[id].e)
    ensures LatestWrite(log, m, id, w)
  {
    var r := log[id].e;
    var a :| InGroup(trace, log[id], a);
    assert SupReads(a, m) && ReadsSup(r, a.writeEvents, m);
    w :| w in a.writeEvents && m.Flows(ReadFrom, w, r);
    assert ReadsSupFrom(r, w, m);
    assert InGroup(trace, log[w.id], a);
    forall id' | EnabledWrite(log, id', m.data) && log[id'].e.address == w.address
                 && m.Time(log[id'].e) <= m.Time(r)
      ensures id' == w.id || m.Time(log[id'].e) < m.Time(w)
    {
      var w' := log[id'].e;
      var b :| InGroup(trace, log[id'], b);
      assert a == b;
      assert ReadsSupFrom(r, w', m);
      if m.Time(w') == m.Time(w) {
        SerializedTimes(a.writeEvents, m, w, w');
      }
    }
  }

  /** In the schedule, that write is the last one before the read. */
  lemma SourceIsLast(trace: Trace, log: map<EventId, Access>, m: Model, schedule: seq<EventId>, k: nat) returns (j: nat)
    requires Filed(trace, log) && QuadraticMemory(trace.index, m)
    requires Respects(trace, log, m, schedule)
    requires k < |schedule| && EnabledRead(log, schedule[k], m.data)
    ensures LastWrite(log, schedule, k, log[schedule[k]].e.address, m.data, j)
    ensures log[schedule[j]].e.term(m.data) == log[schedule[k]].e.term(m.data)
  {
    var w := FlowSource(trace, log, m, schedule[k]);
    assert w.id in schedule;
    j :| 0 <= j < |schedule| && schedule[j] == w.id;
    assert Key(log, m)(w.id) < Key(log, m)(schedule[k]);
    forall i | j < i < k && EnabledWrite(log, schedule[i], m.data) ensures log[schedule[i]].e.address != w.address {
      assert log[schedule[i]].e.id == schedule[i];
      NotBetween(trace, log, m, schedule, j, i, k, w);
    }
  }

  lemma NotBetween(trace: Trace, log: map<EventId, Access>, m: Model, schedule: seq<EventId>, j: nat, i: nat, k: nat,
                   w: Event)
    requires Respects(trace, log, m, schedule)
    requires j < i < k < |schedule| && schedule[j] == w.id && w.id in log && log[w.id] == Access(true, w)
    requires EnabledRead(log, schedule[k], m.data) && log[schedule[k]].e.id == schedule[k]
    requires EnabledWrite(log, schedule[i], m.data) && log[schedule[i]].e.id == schedule[i]
    requires LatestWrite(log, m, schedule[k], w)
    ensures log[schedule[i]].e.address != w.address
  {
    assert Key(log, m)(schedule[j]) <= Key(log, m)(schedule[i]) <= Key(log, m)(schedule[k]);
  }

  // ---- From runs to assignments ------------------------------------------------------

  /** The position of the last enabled write to `address` before position `k`, or -1. */
  ghost function SourcePosition(log: map<EventId, Access>, schedule: seq<EventId>, k: nat, address: nat,
                                data: Data): (j: int)
    requires k <= |schedule|
    ensures -1 <= j < k
    ensures j >= 0 ==> LastWrite(log, schedule, k, address, data, j)
    ensures j < 0 ==> forall i :: !LastWrite(log, schedule, k, address, data, i)
    ensures j < 0 ==> forall i :: 0 <= i < k && EnabledWrite(log, schedule[i], data) ==>
      log[schedule[i]].e.address != address
  {
    if k == 0 then -1
    else if EnabledWrite(log, schedule[k - 1], data) && log[schedule[k - 1]].e.address == address then k - 1
    else SourcePosition(log, schedule, k - 1, address, data)
  }

  ghost function SourceOf(log: map<EventId, Access>, schedule: seq<EventId>, data: Data, id: EventId): int
  {
    var k := Rank(schedule, id);
    if k > 0 && EnabledRead(log, id, data) then SourcePosition(log, schedule, k - 1, log[id].e.address, data) else -1
  }

  /** Times are positions in the run; an enabled read flows from the last enabled write
      before it, and its supremum is the time of that write. */
  ghost function RunModel(log: map<EventId, Access>, schedule: seq<EventId>, data: Data): Model
  {
    Model(data,
          Ranks(schedule),
          (id: EventId) => if SourceOf(log, schedule, data, id) >= 0 then SourceOf(log, schedule, data, id) + 1
                           else if id in schedule then Rank(schedule, id) else 1,
          (flow: Flow, id: EventId) =>
            var j := SourceOf(log, schedule, data, id);
            if 0 <= j < |schedule| then schedule[j] as int else -1)
  }

  /** What an enabled read flows from in a run. */
  lemma RunSource(trace: Trace, log: map<EventId, Access>, schedule: seq<EventId>, data: Data, a: EventKinds, r: Event)
    returns (j: nat, w: Event)
    requires Filed(trace, log) && IsRun(trace, log, schedule, data)
    requires a in trace.index && r in a.readEvents && r.guard(data)
    ensures j == SourceOf(log, schedule, data, r.id) && j < Rank(schedule, r.id) - 1
    ensures LastWrite(log, schedule, Rank(schedule, r.id) - 1, r.address, data, j)
    ensures w == log[schedule[j]].e && w in a.writeEvents && schedule[j] == w.id
    ensures w.term(data) == r.term(data) && Rank(schedule, w.id) == j + 1
  {
    var k := Rank(schedule, r.id) - 1;
    assert r.id in schedule && EnabledRead(log, schedule[k], data);
    assert ReadsMemory(log, schedule, k, data);
    MemoryIsLastWrite(log, schedule, k, r.address, data);
    var i :| LastWrite(log, schedule, k, r.address, data, i);
    j := SourceOf(log, schedule, data, r.id);
    w := log[schedule[j]].e;
    var b :| InGroup(trace, log[schedule[j]], b);
    assert InGroup(trace, log[r.id], a);
    assert a == b;
    RankUnique(schedule, j);
  }

  /** Reads and writes of one group, seen from the log. */
  lemma SameGroup(trace: Trace, log: map<EventId, Access>, a: EventKinds, r: Event, w: Event)
    requires Filed(trace, log) && a in trace.index && r in a.readEvents && w in a.writeEvents
    ensures r.id in log && log[r.id] == Access(false, r) && r.id in ThreadIds(trace.threads)
    ensures w.id in log && log[w.id] == Access(true, w) && w.id in ThreadIds(trace.threads)
    ensures w.address == r.address
  {
    assert InGroup(trace, log[r.id], a) && InGroup(trace, log[w.id], a);
  }

  lemma ReadInRun(trace: Trace, log: map<EventId, Access>, schedule: seq<EventId>, data: Data, a: EventKinds, r: Event)
    requires Filed(trace, log) && IsRun(trace, log, schedule, data)
    requires a in trace.index && r in a.readEvents
    ensures ReadsSup(r, a.writeEvents, RunModel(log, schedule, data))
  {
    var m := RunModel(log, schedule, data);
    if r.guard(data) {
      var j, w := RunSource(trace, log, schedule, data, a, r);
      forall w' | w' in a.writeEvents ensures ReadsSupFrom(r, w', m) {
        SameGroup(trace, log, a, r, w');
        SameGroup(trace, log, a, r, w);
        PairInRun(log, schedule, data, r, w', w, j);
      }
      assert m.Flows(ReadFrom, w, r);
    } else {
      forall w' | w' in a.writeEvents ensures ReadsSupFrom(r, w', m) {
        SameGroup(trace, log, a, r, w');
        assert SourceOf(log, schedule, data, r.id) == -1;
      }
    }
  }

  /** An enabled read that flows from `w`, against any write to its address. */
  lemma PairInRun(log: map<EventId, Access>, schedule: seq<EventId>, data: Data, r: Event, w': Event, w: Event, j: nat)
    requires r.id in log && log[r.id] == Access(false, r) && r.id in schedule && r.guard(data)
    requires w.id in log && log[w.id] == Access(true, w) && w'.id in log && log[w'.id] == Access(true, w')
    requires w'.id in schedule && w'.address == r.address
    requires j == SourceOf(log, schedule, data, r.id) && j < Rank(schedule, r.id) - 1
    requires LastWrite(log, schedule, Rank(schedule, r.id) - 1, r.address, data, j)
    requires schedule[j] == w.id && w.term(data) == r.term(data) && Rank(schedule, w.id) == j + 1
    ensures ReadsSupFrom(r, w', RunModel(log, schedule, data))
  {
    var m := RunModel(log, schedule, data);
    NotLater(log, schedule, data, r, w', j);
    assert m.Sup(r) == j + 1 && m.Time(w) == j + 1 && m.source(ReadFrom, r.id) == w.id;
    if w'.id == w.id {
      assert w' == w;
    }
  }

  /** No enabled write to the address comes between position `j` and the read. */
  lemma NotLater(log: map<EventId, Access>, schedule: seq<EventId>, data: Data, r: Event, w: Event, j: nat)
    requires r.id in log && log[r.id] == Access(false, r) && r.id in schedule
    requires w.id in log && log[w.id] == Access(true, w) && w.id in schedule && w.address == r.address
    requires LastWrite(log, schedule, Rank(schedule, r.id) - 1, r.address, data, j)
    ensures w.guard(data) && Rank(schedule, w.id) <= Rank(schedule, r.id) ==> Rank(schedule, w.id) <= j + 1
  {
    var i, k := Rank(schedule, w.id) - 1, Rank(schedule, r.id) - 1;
    assert schedule[i] == w.id && schedule[k] == r.id;
  }

  lemma WritesInRun(trace: Trace, log: map<EventId, Access>, schedule: seq<EventId>, data: Data, a: EventKinds)
    requires Filed(trace, log) && a in trace.index
    requires forall id :: id in ThreadIds(trace.threads) ==> id in schedule
    ensures Serialized(a.writeEvents, RunModel(log, schedule, data))
  {
    var ws, m := a.writeEvents, RunModel(log, schedule, data);
    NoDuplicateWrites(trace, log, a);
    forall i, j | 0 <= i < j < |ws| ensures m.Time(ws[i]) != m.Time(ws[j]) {
      TwoWrites(trace, log, schedule, data, a, ws[i], ws[j]);
    }
  }

  lemma TwoWrites(trace: Trace, log: map<EventId, Access>, schedule: seq<EventId>, data: Data, a: EventKinds,
                  w: Event, w': Event)
    requires Filed(trace, log) && a in trace.index && w in a.writeEvents && w' in a.writeEvents && w != w'
    requires forall id :: id in ThreadIds(trace.threads) ==> id in schedule
    ensures Rank(schedule, w.id) != Rank(schedule, w'.id)
  {
    FiledWrite(trace, log, a, w);
    FiledWrite(trace, log, a, w');
    assert w.id in schedule && w'.id in schedule;
  }

  lemma FiledWrite(trace: Trace, log: map<EventId, Access>, a: EventKinds, w: Event)
    requires Filed(trace, log) && a in trace.index && w in a.writeEvents
    ensures w.id in log && log[w.id] == Access(true, w) && w.id in ThreadIds(trace.threads)
  {
  }

  lemma NoDuplicateWrites(trace: Trace, log: map<EventId, Access>, a: EventKinds)
    requires Filed(trace, log) && a in trace.index
    ensures NoDuplicates(a.writeEvents)
  {
  }

  lemma OrderedInRun(trace: Trace, log: map<EventId, Access>, schedule: seq<EventId>, data: Data,
                     t: seq<EventId>, i: nat)
    requires IsRun(trace, log, schedule, data) && t in trace.threads && i < |t| - 1
    ensures RunModel(log, schedule, data).time(t[i]) < RunModel(log, schedule, data).time(t[i + 1])
  {
    assert Ordered(schedule, t[i], t[i + 1]);
    var p, q :| 0 <= p < q < |schedule| && schedule[p] == t[i] && schedule[q] == t[i + 1];
    RankUnique(schedule, p);
    RankUnique(schedule, q);
  }

  /** Every run is found by the encoding. */
  lemma RunGivesAssignment(trace: Trace, log: map<EventId, Access>, schedule: seq<EventId>, data: Data)
    requires Filed(trace, log) && IsRun(trace, log, schedule, data)
    ensures var m := RunModel(log, schedule, data);
      && AllThreadOrder(trace.threads, m) && QuadraticMemory(trace.index, m)
      && forall id :: m.time(id) > 0 && m.sup(id) > 0
  {
    var m := RunModel(log, schedule, data);
    forall t, i | t in trace.threads && 0 <= i < |t| - 1 ensures m.time(t[i]) < m.time(t[i + 1]) {
      OrderedInRun(trace, log, schedule, data, t, i);
    }
    forall a | a in trace.index ensures SupReads(a, m) && Serialized(a.writeEvents, m) {
      forall r | r in a.readEvents ensures ReadsSup(r, a.writeEvents, m) {
        ReadInRun(trace, log, schedule, data, a, r);
      }
      WritesInRun(trace, log, schedule, data, a);
    }
  }

  /** The program can run with this data. */
  ghost predicate Runnable(trace: Trace, log: map<EventId, Access>, data: Data)
  {
    exists schedule :: IsRun(trace, log, schedule, data)
  }

  ghost predicate MemorySatisfiable(trace: Trace, data: Data)
  {
    exists m: Model :: m.data == data && AllThreadOrder(trace.threads, m) && QuadraticMemory(trace.index, m)
  }

  ghost predicate SatisfiableWith(solver: seq<Constraint>, data: Data)
  {
    exists m: Model :: m.data == data && AllHold(solver, m)
  }

  /** Main result: for given data, the constraints on memory and program order are
      satisfiable exactly if some interleaving of the threads runs with that data. */
  lemma SatisfiableIffRunnable(trace: Trace, log: map<EventId, Access>, data: Data)
    requires Filed(trace, log)
    ensures MemorySatisfiable(trace, data) <==> Runnable(trace, log, data)
  {
    if MemorySatisfiable(trace, data) {
      var m: Model :| m.data == data && AllThreadOrder(trace.threads, m) && QuadraticMemory(trace.index, m);
      ScheduleRespects(trace, log, m);
      AssignmentGivesRun(trace, log, m, Schedule(trace, log, m));
    }
    if Runnable(trace, log, data) {
      var schedule :| IsRun(trace, log, schedule, data);
      RunGivesAssignment(trace, log, schedule, data);
      assert RunModel(log, schedule, data).data == data;
    }
  }

  /** The same for the constraints the encoder really hands to the solver. */
  method EncodeProgram(trace: Trace, ghost log: map<EventId, Access>) returns (solver: seq<Constraint>)
    requires Filed(trace, log)
    ensures forall data: Data :: SatisfiableWith(solver, data) <==> Runnable(trace, log, data)
  {
    var encoder := new Encoder();
    encoder.EncodeThreadOrder(trace.threads);
    encoder.EncodeMemoryConcurrency(trace.index);
    solver := encoder.solver;
    forall data: Data ensures SatisfiableWith(solver, data) <==> Runnable(trace, log, data) {
      SatisfiableIffRunnable(trace, log, data);
      if Runnable(trace, log, data) {
        var schedule :| IsRun(trace, log, schedule, data);
        RunGivesAssignment(trace, log, schedule, data);
        assert AllHold(solver, RunModel(log, schedule, data));
        assert RunModel(log, schedule, data).data == data;
      }
    }
  }
}
