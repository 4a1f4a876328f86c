/** The array encoding and the runs of a zero-initialized array. */
module ArrayExactness {
  import opened Events
  import opened Sorting

  datatype ArrayOp = Load(e: Event) | Store(e: Event)

  function Ops(a: EventKinds): (ops: seq<ArrayOp>)
    ensures forall e :: Load(e) in ops <==> e in a.loads
    ensures forall e :: Store(e) in ops <==> e in a.stores
  {
    var loads := seq(|a.loads|, i requires 0 <= i < |a.loads| => Load(a.loads[i]));
    var stores := seq(|a.stores|, i requires 0 <= i < |a.stores| => Store(a.stores[i]));
    assert forall e :: Load(e) in loads <==> e in a.loads by {
      forall e | e in a.loads ensures Load(e) in loads {
        var i :| 0 <= i < |a.loads| && a.loads[i] == e;
        assert loads[i] == Load(e);
      }
    }
    assert forall e :: Store(e) in stores <==> e in a.stores by {
      forall e | e in a.stores ensures Store(e) in stores {
        var i :| 0 <= i < |a.stores| && a.stores[i] == e;
        assert stores[i] == Store(e);
      }
    }
    loads + stores
  }

  /** By time; a load does not see a store at the same time. */
  ghost function Key(time: EventId -> int): ArrayOp -> int
  {
    (op: ArrayOp) => 2 * time(op.e.id) + (if op.Store? then 1 else 0)
  }

  ghost function TimeOrdered(a: EventKinds, time: EventId -> int): (ops: seq<ArrayOp>)
    ensures SortedBy(ops, Key(time))
    ensures forall e :: Load(e) in ops <==> e in a.loads
    ensures forall e :: Store(e) in ops <==> e in a.stores
  {
    Sort(Ops(a), Key(time))
  }

  /** Array contents after the enabled stores of `ops`, in order. */
  ghost function Contents(ops: seq<ArrayOp>, data: Data): map<int, int>
  {
    if ops == [] then map[]
    else
      var before, op := Contents(ops[..|ops| - 1], data), ops[|ops| - 1];
      if op.Store? && op.e.guard(data) then before[op.e.offset(data) := op.e.term(data)] else before
  }

  /** Elements never stored to are zero. */
  function Lookup(contents: map<int, int>, offset: int): int
  {
    if offset in contents then contents[offset] else 0
  }

  /** An enabled store to the offset of the load. */
  ghost predicate Hits(op: ArrayOp, offset: int, m: Model)
  {
    op.Store? && m.Guard(op.e) && m.Offset(op.e) == offset
  }

  ghost predicate LastHit(ops: seq<ArrayOp>, k: nat, offset: int, m: Model, j: int)
    requires k <= |ops|
  {
    0 <= j < k && Hits(ops[j], offset, m) && forall i :: j < i < k ==> !Hits(ops[i], offset, m)
  }

  lemma {:induction false} ContentsIsLastHit(ops: seq<ArrayOp>, k: nat, offset: int, m: Model, j: nat)
    requires k <= |ops| && LastHit(ops, k, offset, m, j)
    ensures Lookup(Contents(ops[..k], m.data), offset) == m.Value(ops[j].e)
  {
    assert ops[..k][..k - 1] == ops[..k - 1];
    if j < k - 1 {
      assert !Hits(ops[k - 1], offset, m);
      ContentsIsLastHit(ops, k - 1, offset, m, j);
    }
  }

  lemma {:induction false} ContentsUntouched(ops: seq<ArrayOp>, k: nat, offset: int, m: Model)
    requires k <= |ops| && forall i :: 0 <= i < k ==> !Hits(ops[i], offset, m)
    ensures Lookup(Contents(ops[..k], m.data), offset) == 0
  {
    if k > 0 {
      assert ops[..k][..k - 1] == ops[..k - 1];
      assert !Hits(ops[k - 1], offset, m);
      ContentsUntouched(ops, k - 1, offset, m);
    }
  }

  ghost predicate ArrayEncoded(a: EventKinds, m: Model)
  {
    AllLoadsFrom(a, m) && AllFromLoad(a, m) && Serialized(a.stores, m)
  }

  /** Every enabled load, run in time order, returns the contents of the array. */
  ghost predicate LoadsContents(ops: seq<ArrayOp>, m: Model)
  {
    forall k :: 0 <= k < |ops| && ops[k].Load? && m.Guard(ops[k].e) ==> FindsContents(ops, k, m)
  }

  ghost predicate FindsContents(ops: seq<ArrayOp>, k: nat, m: Model)
    requires k < |ops|
  {
    m.Value(ops[k].e) == Lookup(Contents(ops[..k], m.data), m.Offset(ops[k].e))
  }

  /** No load is disabled. */
  ghost predicate LoadsEnabled(a: EventKinds, data: Data)
  {
    forall ld :: ld in a.loads ==> ld.guard(data)
  }

  /** The latest enabled store to the offset of a load before it. */
  ghost predicate Latest(ld: Event, s: Event, stores: seq<Event>, m: Model)
  {
    && s in stores && m.Guard(s) && m.Offset(s) == m.Offset(ld) && m.Time(s) < m.Time(ld)
    && forall s' :: s' in stores && m.Guard(s') && m.Offset(s') == m.Offset(ld) && m.Time(s') < m.Time(ld) ==>
         m.Time(s') <= m.Time(s)
  }

  lemma LatestIsLastHit(a: EventKinds, m: Model, ops: seq<ArrayOp>, k: nat, s: Event)
    requires SortedBy(ops, Key(m.time)) && Serialized(a.stores, m)
    requires forall e :: Store(e) in ops <==> e in a.stores
    requires k < |ops| && ops[k].Load? && Latest(ops[k].e, s, a.stores, m)
    ensures Lookup(Contents(ops[..k], m.data), m.Offset(ops[k].e)) == m.Value(s)
  {
    var ld := ops[k].e;
    assert Store(s) in ops;
    var i :| 0 <= i < |ops| && ops[i] == Store(s);
    assert Key(m.time)(ops[i]) < Key(m.time)(ops[k]);
    var j := LastHitBefore(ops, k, m.Offset(ld), m, i);
    assert ops[j] in ops && ops[j] == Store(ops[j].e);
    assert Key(m.time)(ops[i]) <= Key(m.time)(ops[j]) <= Key(m.time)(ops[k]);
    SerializedTimes(a.stores, m, s, ops[j].e);
    ContentsIsLastHit(ops, k, m.Offset(ld), m, j);
  }

  lemma {:induction false} LastHitBefore(ops: seq<ArrayOp>, k: nat, offset: int, m: Model, i: nat) returns (j: nat)
    requires i < k <= |ops| && Hits(ops[i], offset, m)
    ensures i <= j && LastHit(ops, k, offset, m, j)
  {
    if Hits(ops[k - 1], offset, m) {
      j := k - 1;
    } else {
      j := LastHitBefore(ops, k - 1, offset, m, i);
    }
  }

  lemma NothingHits(a: EventKinds, m: Model, ops: seq<ArrayOp>, k: nat)
    requires SortedBy(ops, Key(m.time))
    requires forall e :: Store(e) in ops <==> e in a.stores
    requires k < |ops| && ops[k].Load?
    requires forall s :: s in a.stores && m.Guard(s) && m.Offset(s) == m.Offset(ops[k].e) ==>
      m.Time(ops[k].e) <= m.Time(s)
    ensures Lookup(Contents(ops[..k], m.data), m.Offset(ops[k].e)) == 0
  {
    forall i | 0 <= i < k ensures !Hits(ops[i], m.Offset(ops[k].e), m) {
      assert Key(m.time)(ops[i]) <= Key(m.time)(ops[k]);
      if ops[i].Store? {
        assert ops[i] in ops && ops[i] == Store(ops[i].e);
      }
    }
    ContentsUntouched(ops, k, m.Offset(ops[k].e), m);
  }

  /** The side conditions under which the encoding accepts a load: no enabled store to
      its offset at the same time if there is one before it, and otherwise no store at
      all to its offset, enabled or not, at or before its time. */
  ghost predicate Clear(ld: Event, stores: seq<Event>, m: Model)
  {
    if exists s :: Latest(ld, s, stores, m) then
      forall s :: s in stores && m.Guard(s) && m.Offset(s) == m.Offset(ld) ==> m.Time(s) != m.Time(ld)
    else
      forall s :: s in stores && m.Offset(s) == m.Offset(ld) ==> m.Time(ld) < m.Time(s)
  }

  /** Some enabled earlier store to the offset implies a latest one. */
  lemma {:induction false} LatestExists(ld: Event, stores: seq<Event>, m: Model, s: Event) returns (t: Event)
    requires s in stores && m.Guard(s) && m.Offset(s) == m.Offset(ld) && m.Time(s) < m.Time(ld)
    ensures Latest(ld, t, stores, m)
    decreases m.Time(ld) - m.Time(s)
  {
    if s' :| s' in stores && m.Guard(s') && m.Offset(s') == m.Offset(ld)
             && m.Time(s') < m.Time(ld) && m.Time(s) < m.Time(s')
    {
      t := LatestExists(ld, stores, m, s');
    } else {
      t := s;
    }
  }

  /** The flow chosen for a load by the encoding is the latest store. */
  lemma FlowIsLatest(a: EventKinds, m: Model, ld: Event, s: Event)
    requires ArrayEncoded(a, m) && ld in a.loads && s in a.stores && m.Flows(LoadFrom, s, ld)
    ensures Latest(ld, s, a.stores, m) && Clear(ld, a.stores, m) && m.Guard(ld) && m.Value(ld) == m.Value(s)
  {
    assert LoadsFrom(ld, a.stores, m) && FromLoad(ld, a.stores, m);
    var i :| 0 <= i < |a.stores| && a.stores[i] == s;
    forall s' | s' in a.stores && m.Guard(s') && m.Offset(s') == m.Offset(ld) && m.Time(s) < m.Time(s')
      ensures m.Time(ld) < m.Time(s')
    {
      var j :| 0 <= j < |a.stores| && a.stores[j] == s';
      assert FromLoadPair(ld, a.stores[i], a.stores[j], m);
    }
    assert Latest(ld, s, a.stores, m);
  }

  /** One load of an encoded array. */
  lemma LoadEncoded(a: EventKinds, m: Model, ops: seq<ArrayOp>, k: nat)
    requires ArrayEncoded(a, m) && SortedBy(ops, Key(m.time))
    requires forall e :: Load(e) in ops <==> e in a.loads
    requires forall e :: Store(e) in ops <==> e in a.stores
    requires k < |ops| && ops[k].Load?
    ensures m.Guard(ops[k].e) && Clear(ops[k].e, a.stores, m)
    ensures m.Value(ops[k].e) == Lookup(Contents(ops[..k], m.data), m.Offset(ops[k].e))
  {
    var ld := ops[k].e;
    assert ops[k] in ops && ops[k] == Load(ld);
    assert LoadsFrom(ld, a.stores, m);
    if HasSource(LoadFrom, a.stores, ld, m) {
      var s :| s in a.stores && m.Flows(LoadFrom, s, ld);
      FlowIsLatest(a, m, ld, s);
      LatestIsLastHit(a, m, ops, k, s);
    } else {
      NothingHits(a, m, ops, k);
    }
  }

  /** Let each load flow from its latest store, or from none. */
  ghost function WithLatest(a: EventKinds, m: Model): Model
  {
    m.(source := (flow: Flow, id: EventId) =>
         if exists ld, s :: ld in a.loads && ld.id == id && Latest(ld, s, a.stores, m)
         then var ld, s :| ld in a.loads && ld.id == id && Latest(ld, s, a.stores, m); s.id
         else -1)
  }

  ghost predicate DistinctLoads(a: EventKinds)
  {
    forall e, f :: e in a.loads && f in a.loads && e.id == f.id ==> e == f
  }

  lemma LatestUnique(ld: Event, s: Event, t: Event, stores: seq<Event>, m: Model)
    requires Serialized(stores, m) && Latest(ld, s, stores, m) && Latest(ld, t, stores, m)
    ensures s == t
  {
    SerializedTimes(stores, m, s, t);
  }

  lemma LoadChosen(a: EventKinds, m: Model, ld: Event)
    requires Serialized(a.stores, m) && DistinctLoads(a) && ld in a.loads
    requires m.Guard(ld) && Clear(ld, a.stores, m)
    requires forall s :: Latest(ld, s, a.stores, m) ==> m.Value(ld) == m.Value(s)
    requires (forall s :: !Latest(ld, s, a.stores, m)) ==> m.Value(ld) == 0
    ensures LoadsFrom(ld, a.stores, WithLatest(a, m)) && FromLoad(ld, a.stores, WithLatest(a, m))
  {
    var m' := WithLatest(a, m);
    if t :| Latest(ld, t, a.stores, m) {
      forall s | Latest(ld, s, a.stores, m) ensures s == t {
        LatestUnique(ld, s, t, a.stores, m);
      }
      assert m'.source(LoadFrom, ld.id) == t.id;
      assert m'.Flows(LoadFrom, t, ld);
      forall s | s in a.stores && m'.Flows(LoadFrom, s, ld) ensures s == t {
        SerializedTimes(a.stores, m, s, t);
      }
      forall i, j | 0 <= i < |a.stores| && 0 <= j < |a.stores| && i != j
        ensures FromLoadPair(ld, a.stores[i], a.stores[j], m')
      {}
    } else {
      assert m'.source(LoadFrom, ld.id) == -1;
      assert !HasSource(LoadFrom, a.stores, ld, m');
    }
  }

  ghost predicate ArrayRuns(a: EventKinds, m: Model)
  {
    LoadsContents(TimeOrdered(a, m.time), m)
  }

  ghost predicate LoadsClear(a: EventKinds, m: Model)
  {
    forall ld :: ld in a.loads ==> Clear(ld, a.stores, m)
  }

  /** Soundness: in every satisfying assignment, running the stores in time order on an
      array of zeros makes each load return what it finds; but no load is disabled, and all
      are clear of stores. */
  lemma ArrayEncodingSound(a: EventKinds, m: Model)
    requires ArrayEncoded(a, m)
    ensures ArrayRuns(a, m) && LoadsEnabled(a, m.data) && LoadsClear(a, m)
  {
    var ops := TimeOrdered(a, m.time);
    forall k | 0 <= k < |ops| && ops[k].Load? ensures FindsContents(ops, k, m) {
      LoadEncoded(a, m, ops, k);
    }
    forall ld | ld in a.loads ensures m.Guard(ld) && Clear(ld, a.stores, m) {
      assert Load(ld) in ops;
      var k :| 0 <= k < |ops| && ops[k] == Load(ld);
      LoadEncoded(a, m, ops, k);
    }
  }

  /** Exactness: the flow of loads can be chosen so that the encoding holds exactly if
      the stores are serialized, the array runs, no load is disabled, and every load is clear
      of stores in the sense above. */
  lemma ArrayEncodingExact(a: EventKinds, m: Model)
    requires DistinctLoads(a)
    ensures (exists m': Model :: m' == m.(source := m'.source) && ArrayEncoded(a, m'))
        <==> Serialized(a.stores, m) && LoadsEnabled(a, m.data) && LoadsClear(a, m) && ArrayRuns(a, m)
  {
    if m': Model :| m' == m.(source := m'.source) && ArrayEncoded(a, m') {
      ArrayEncodingSound(a, m');
      FlowIrrelevant(a, m', m);
    }
    if Serialized(a.stores, m) && LoadsEnabled(a, m.data) && LoadsClear(a, m) && ArrayRuns(a, m) {
      var ops, m' := TimeOrdered(a, m.time), WithLatest(a, m);
      forall ld | ld in a.loads ensures LoadsFrom(ld, a.stores, m') && FromLoad(ld, a.stores, m') {
        assert Load(ld) in ops;
        var k :| 0 <= k < |ops| && ops[k] == Load(ld);
        assert FindsContents(ops, k, m);
        forall s | Latest(ld, s, a.stores, m) ensures m.Value(ld) == m.Value(s) {
          LatestIsLastHit(a, m, ops, k, s);
        }
        if forall s :: !Latest(ld, s, a.stores, m) {
          NothingHits(a, m, ops, k);
        }
        LoadChosen(a, m, ld);
      }
      assert m' == m.(source := m'.source) && ArrayEncoded(a, m');
    }
  }

  /** Runs depend on times and data alone. */
  lemma FlowIrrelevant(a: EventKinds, m': Model, m: Model)
    requires m'.time == m.time && m'.data == m.data
    ensures ArrayRuns(a, m') ==> ArrayRuns(a, m)
    ensures LoadsClear(a, m') ==> LoadsClear(a, m)
    ensures Serialized(a.stores, m') ==> Serialized(a.stores, m)
  {
    var ops := TimeOrdered(a, m.time);
    forall k: nat | k < |ops| ensures FindsContents(ops, k, m') == FindsContents(ops, k, m) {}
    assert LoadsContents(ops, m') ==> LoadsContents(ops, m);
    forall ld ensures Clear(ld, a.stores, m') ==> Clear(ld, a.stores, m) {
      ClearIrrelevant(ld, a.stores, m', m);
    }
  }

  lemma ClearIrrelevant(ld: Event, stores: seq<Event>, m': Model, m: Model)
    requires m'.time == m.time && m'.data == m.data
    ensures Clear(ld, stores, m') ==> Clear(ld, stores, m)
  {
    forall s ensures Latest(ld, s, stores, m') == Latest(ld, s, stores, m) {
      if Latest(ld, s, stores, m') {
        LatestIrrelevant(ld, s, stores, m', m);
      }
      if Latest(ld, s, stores, m) {
        LatestIrrelevant(ld, s, stores, m, m');
      }
    }
  }

  lemma LatestIrrelevant(ld: Event, s: Event, stores: seq<Event>, m': Model, m: Model)
    requires m'.time == m.time && m'.data == m.data && Latest(ld, s, stores, m')
    ensures Latest(ld, s, stores, m)
  {
  }

  // ---- Legitimate runs that the encoding rejects ----------------------------------------

  /** A store whose guard is false, at time 1, and a load of zero from the same offset,
      at time 2. */
  function DisabledStore(): EventKinds
  {
    EventKinds([], [], [], [], [Event(2, 0, d => true, d => 0, d => 0)], [Event(1, 0, d => false, d => 7, d => 0)])
  }

  function DisabledStoreModel(source: (Flow, EventId) -> int): Model
  {
    Model(n => 0, (id: EventId) => id, (id: EventId) => 0, source)
  }

  /** The load returns what is in the array, but the encoding rejects it for every choice
      of sources: without a source it wants the load before the store, enabled or not. */
  lemma DisabledStoreRejected(source: (Flow, EventId) -> int)
    ensures var a, m := DisabledStore(), DisabledStoreModel(source);
      ArrayRuns(a, m) && Serialized(a.stores, m) && LoadsEnabled(a, m.data) && !ArrayEncoded(a, m)
  {
    var a, m := DisabledStore(), DisabledStoreModel(source);
    DisabledStoreRuns(a, m);
    DisabledBlocks(a, m, a.loads[0], a.stores[0]);
  }

  lemma DisabledBlocks(a: EventKinds, m: Model, ld: Event, s: Event)
    requires ld in a.loads && a.stores == [s] && !m.Guard(s) && m.Time(s) < m.Time(ld) && m.Offset(s) == m.Offset(ld)
    ensures !ArrayEncoded(a, m)
  {
    assert s in a.stores;
    assert !LoadsFrom(ld, a.stores, m);
  }

  /** Without enabled stores an array is zero everywhere. */
  lemma DisabledStoreRuns(a: EventKinds, m: Model)
    requires forall s :: s in a.stores ==> !m.Guard(s)
    requires forall ld :: ld in a.loads && m.Guard(ld) ==> m.Value(ld) == 0
    ensures LoadsContents(TimeOrdered(a, m.time), m)
  {
    var ops := TimeOrdered(a, m.time);
    forall k | 0 <= k < |ops| && ops[k].Load? && m.Guard(ops[k].e) ensures FindsContents(ops, k, m) {
      assert ops[k] in ops && ops[k] == Load(ops[k].e);
      NothingHits(a, m, ops, k);
    }
  }

  /** A load whose guard is false, and nothing else. */
  function DisabledLoad(): EventKinds
  {
    EventKinds([], [], [], [], [Event(1, 0, d => false, d => 0, d => 0)], [])
  }

  /** A disabled load rules out every model, although the array has nothing to do. */
  lemma DisabledLoadRejected(m: Model)
    ensures var a := DisabledLoad();
      ArrayRuns(a, m) && Serialized(a.stores, m) && LoadsClear(a, m) && !ArrayEncoded(a, m)
  {
    var a := DisabledLoad();
    DisabledStoreRuns(a, m);
    assert a.loads[0] in a.loads && !LoadsFrom(a.loads[0], a.stores, m);
  }
}
