/** What models of the release-acquire axioms are: executions in which every enabled load
    reads from the latest store before it. */
module ReleaseAcquireExactness {
  import opened MemoryLabels
  import opened ReleaseAcquire
  import opened ReleaseAcquireEncoding

  ghost predicate StrictOver(order: (Event, Event) -> bool, n: nat)
  {
    && (forall e: nat :: e < n ==> !order(e, e))
    && (forall a: nat, b: nat, c: nat :: a < n && b < n && c < n && order(a, b) && order(b, c) ==> order(a, c))
  }

  /** Other enabled stores to the address come before `a` or after the load. */
  ghost predicate NoneBetween(w: Memory, a: Event, l: Event, m: Model)
    requires w.Valid()
  {
    forall b: nat :: w.Store(b) && w.Shared(b, l) && b != a && w.Runs(b, m) ==> m.order(b, a) || m.order(l, b)
  }

  ghost predicate ReadsLatestFrom(w: Memory, a: Event, l: Event, m: Model)
    requires w.Valid()
  {
    && w.Candidate(a, l) && w.Runs(a, m) && m.order(a, l) && m.value(l) == Byte(w.labels[a])
    && NoneBetween(w, a, l, m)
  }

  ghost predicate ReadsLatest(w: Memory, l: Event, m: Model)
    requires w.Valid()
  {
    exists a: nat :: ReadsLatestFrom(w, a, l, m)
  }

  /** A release-acquire execution: an order and values, without saying who reads from whom. */
  ghost predicate Execution(w: Memory, m: Model)
    requires w.Valid()
  {
    && (forall a: nat :: w.Store(a) ==> m.value(a) == Byte(w.labels[a]))
    && (forall a: nat, b: nat :: w.Store(a) && w.Store(b) && w.Shared(a, b) && a < b ==> m.order(a, b) || m.order(b, a))
    && (forall l: nat :: w.Load(l) && w.Runs(l, m) ==> Contradicted(w, l, m) || ReadsLatest(w, l, m))
  }

  lemma SourceReadsLatest(w: Memory, a: Event, l: Event, m: Model)
    requires w.Valid() && MemoryAxioms(w, m) && w.Candidate(a, l) && m.source(l) == a
    ensures ReadsLatestFrom(w, a, l, m)
  {
    assert ReadAxioms(w, l, m) && SynchronizesWith(w, a, l, m);
    forall b: nat | w.Store(b) && w.Shared(b, l) && b != a && w.Runs(b, m) ensures m.order(b, a) || m.order(l, b) {
      assert w.Shared(a, b) && FromReadPair(w, a, b, l, m);
      assert m.order(a, b) || m.order(b, a) by {
        if a < b {
          assert w.Store(a) && w.Store(b) && w.Shared(a, b);
        } else {
          assert w.Store(b) && w.Store(a) && w.Shared(b, a);
        }
      }
    }
  }

  lemma ModelIsExecution(w: Memory, m: Model)
    requires w.Valid() && MemoryAxioms(w, m)
    ensures Execution(w, m)
  {
    forall l: nat | w.Load(l) && w.Runs(l, m) && !Contradicted(w, l, m) ensures ReadsLatest(w, l, m) {
      assert ReadAxioms(w, l, m);
      var a: nat :| w.Candidate(a, l) && m.source(l) == a;
      SourceReadsLatest(w, a, l, m);
    }
  }

  /** In every model over a strict order, an enabled load whose assumption holds takes its
      value from an enabled store to its address that happens before it, and every other
      enabled store that happens before the load happens before that store. */
  lemma LoadsReadLatestStore(w: Memory, l: Event, m: Model) returns (a: Event)
    requires w.Valid() && MemoryAxioms(w, m) && StrictOver(m.order, |w.labels|)
    requires w.Load(l) && w.Runs(l, m)
    requires w.guards != [] && IsAssume(w.labels[l]) ==> Assumption(w.labels, l, m)
    ensures w.Store(a) && w.Shared(a, l) && w.Runs(a, m) && m.order(a, l) && m.value(l) == Byte(w.labels[a])
    ensures forall b: nat :: w.Store(b) && w.Shared(b, l) && w.Runs(b, m) && m.order(b, l) && b != a ==> m.order(b, a)
    ensures IsAssume(w.labels[l]) ==> Assumption(w.labels, l, m)
  {
    ModelIsExecution(w, m);
    assert ReadsLatest(w, l, m);
    a :| ReadsLatestFrom(w, a, l, m);
    AssumeKinds(w.labels[l]);
    forall b: nat | w.Store(b) && w.Shared(b, l) && w.Runs(b, m) && m.order(b, l) && b != a ensures m.order(b, a) {
      NotBothWays(m.order, |w.labels|, l, b);
    }
  }

  lemma NotBothWays(order: (Event, Event) -> bool, n: nat, a: Event, b: Event)
    requires StrictOver(order, n) && a < n && b < n
    ensures !(order(a, b) && order(b, a))
  {
  }

  // ---- From executions to models -----------------------------------------------------------

  /** Where a load reads from in an execution, if anywhere. */
  ghost function ChosenSource(w: Memory, m: Model, l: Event): int
    requires w.Valid()
  {
    if ReadsLatest(w, l, m) then
      var a: nat :| ReadsLatestFrom(w, a, l, m);
      a
    else -1
  }

  ghost function WithSources(w: Memory, m: Model): Model
    requires w.Valid()
  {
    m.(source := (l: nat) => ChosenSource(w, m, l))
  }

  lemma {:induction false} RunsIgnoresSources(w: Memory, e: Event, m: Model, m': Model)
    requires w.Valid() && m.value == m'.value
    ensures w.Runs(e, m) <==> w.Runs(e, m')
    decreases e
  {
    if IsGuarded(w.guards, e) {
      RunsIgnoresSources(w, w.guards[e], m, m');
    }
  }

  lemma ExecutionReads(w: Memory, m: Model, l: Event)
    requires w.Valid() && Execution(w, m) && StrictOver(m.order, |w.labels|) && w.Load(l)
    ensures ReadAxioms(w, l, WithSources(w, m))
  {
    var m' := WithSources(w, m);
    RunsIgnoresSources(w, l, m, m');
    forall a: nat | w.Candidate(a, l) && m'.source(l) == a ensures ReadsLatestFrom(w, a, l, m) {
      assert ReadsLatest(w, l, m);
    }
    forall a: nat ensures SynchronizesWith(w, a, l, m') {
      RunsIgnoresSources(w, a, m, m');
    }
    forall a: nat, b: nat | w.Store(b) && w.Shared(a, b) ensures FromReadPair(w, a, b, l, m') {
      RunsIgnoresSources(w, b, m, m');
      if w.Candidate(a, l) && m'.source(l) == a && a != b && m.order(a, b) && w.Runs(b, m) {
        NotBothWays(m.order, |w.labels|, a, b);
        assert NoneBetween(w, a, l, m) && w.Shared(b, l);
      }
    }
    if w.Runs(l, m) && !Contradicted(w, l, m) {
      assert ReadsLatest(w, l, m);
      var a: nat :| ReadsLatestFrom(w, a, l, m) && ChosenSource(w, m, l) == a;
      assert w.Candidate(a, l) && m'.source(l) == a;
    }
  }

  ghost predicate HasSources(w: Memory, m: Model)
    requires w.Valid()
  {
    exists m': Model :: m'.order == m.order && m'.value == m.value && MemoryAxioms(w, m')
  }

  lemma ExecutionGivesModel(w: Memory, m: Model)
    requires w.Valid() && Execution(w, m) && StrictOver(m.order, |w.labels|)
    ensures MemoryAxioms(w, WithSources(w, m))
  {
    forall l: nat | w.Load(l) ensures ReadAxioms(w, l, WithSources(w, m)) {
      ExecutionReads(w, m, l);
    }
  }

  lemma ExecutionIgnoresSources(w: Memory, m: Model, m': Model)
    requires w.Valid() && m.order == m'.order && m.value == m'.value && Execution(w, m')
    ensures Execution(w, m)
  {
    forall l: nat | w.Load(l) && w.Runs(l, m) ensures Contradicted(w, l, m) || ReadsLatest(w, l, m) {
      RunsIgnoresSources(w, l, m, m');
      if !Contradicted(w, l, m') {
        var a: nat :| ReadsLatestFrom(w, a, l, m');
        RunsIgnoresSources(w, a, m, m');
        forall b: nat | w.Store(b) && w.Shared(b, l) && b != a && w.Runs(b, m) ensures m.order(b, a) || m.order(l, b) {
          RunsIgnoresSources(w, b, m, m');
        }
        assert ReadsLatestFrom(w, a, l, m);
      }
    }
  }

  /** The axioms can be met by some choice of sources exactly in the executions. */
  lemma ReleaseAcquireExact(w: Memory, m: Model)
    requires w.Valid() && StrictOver(m.order, |w.labels|)
    ensures HasSources(w, m) <==> Execution(w, m)
  {
    forall m': Model | m'.order == m.order && m'.value == m.value && MemoryAxioms(w, m') ensures Execution(w, m) {
      ModelIsExecution(w, m');
      ExecutionIgnoresSources(w, m, m');
    }
    if Execution(w, m) {
      ExecutionGivesModel(w, m);
      assert WithSources(w, m).order == m.order;
    }
  }
}
