/** Refinement of shared memory programs: `x` refines `y` in such a way that `y`, ordered
    like `x`, is a release-acquire execution. */
module MemoryRefinement {
  import opened Orders
  import PartialStrings
  import RefinementLaws
  import RefinementEncoding
  import opened MemoryLabels
  import opened ReleaseAcquire
  import opened ReleaseAcquireEncoding
  import opened ReleaseAcquireExactness

  type PartialString = PartialStrings.PartialString

  /** The events of `y` as a memory without guards. */
  function MemoryOf(y: PartialString): Memory
  {
    Memory([], y.labels)
  }

  /** Events of `y` happen in the order of their images. */
  ghost function Pulled(m: RefinementEncoding.Model, value: nat -> int, source: nat -> int): Model
  {
    Model((a: nat, b: nat) => m.order(m.image(a), m.image(b)), value, source)
  }

  ghost predicate Satisfiable(memory: seq<Constraint>, morphism: seq<RefinementEncoding.Constraint>)
  {
    exists m: RefinementEncoding.Model, value: nat -> int, source: nat -> int ::
      RefinementEncoding.AllHold(morphism, m) && AllHold(memory, Pulled(m, value, source))
  }

  ghost predicate ExecutesBy(h: seq<nat>, value: nat -> int, x: PartialString, y: PartialString)
  {
    && RefinementLaws.IsMorphism(h, y, x)
    && Execution(MemoryOf(y), Pulled(RefinementEncoding.ModelOf(h, x), value, _ => -1))
  }

  /** Some renumbering makes `x` refine `y`, and its order makes `y` an execution. */
  ghost predicate MemoryRefines(x: PartialString, y: PartialString)
  {
    exists h, value :: ExecutesBy(h, value, x, y)
  }

  // ---- The same in terms of events, labels and the order of `x` ------------------------------

  ghost predicate IsStore(y: PartialString, e: nat)
  {
    e < |y.labels| && IsReleaseStore(y.labels[e])
  }

  ghost predicate IsLoad(y: PartialString, e: nat)
  {
    e < |y.labels| && IsAcquireLoad(y.labels[e])
  }

  ghost predicate SameAddress(y: PartialString, e: nat, f: nat)
  {
    e < |y.labels| && f < |y.labels| && Address(y.labels[e]) == Address(y.labels[f])
  }

  /** The value that an event has agrees with what its label says: stores have the byte they
      write, and assumptions hold. */
  ghost predicate FitsLabel(l: Label, value: int)
  {
    && (IsReleaseStore(l) ==> value == Byte(l))
    && (IsAcquireLoad(l) && IsAssumeEq(l) ==> value == Byte(l))
    && (IsAcquireLoad(l) && IsAssumeNeq(l) ==> value != Byte(l))
  }

  /** The events of `y` come one before the other in `x`. */
  ghost predicate Follows(h: seq<nat>, x: PartialString, e: nat, f: nat)
  {
    e < |h| && f < |h| && PartialStrings.Before(x, h[e], h[f])
  }

  /** Load `e` has the byte of store `a`, which comes before it, and every other store to the
      address comes before `a` or after `e`. */
  ghost predicate TakesFrom(h: seq<nat>, value: nat -> int, x: PartialString, y: PartialString, a: nat, e: nat)
  {
    && IsStore(y, a) && SameAddress(y, a, e) && Follows(h, x, a, e) && value(e) == Byte(y.labels[a])
    && forall b: nat :: IsStore(y, b) && SameAddress(y, b, e) && b != a ==> Follows(h, x, b, a) || Follows(h, x, e, b)
  }

  ghost predicate TakesFromSome(h: seq<nat>, value: nat -> int, x: PartialString, y: PartialString, e: nat)
  {
    exists a: nat :: TakesFrom(h, value, x, y, a, e)
  }

  /** All events of `y`, renumbered by `h`, happen in the order of `x` like events of a memory. */
  ghost predicate HappensIn(h: seq<nat>, value: nat -> int, x: PartialString, y: PartialString)
  {
    && RefinementLaws.IsMorphism(h, y, x)
    && (forall e: nat :: IsStore(y, e) || IsLoad(y, e) ==> FitsLabel(y.labels[e], value(e)))
    && (forall a: nat, b: nat :: IsStore(y, a) && IsStore(y, b) && SameAddress(y, a, b) && a != b ==>
          Follows(h, x, a, b) || Follows(h, x, b, a))
    && (forall e: nat :: IsLoad(y, e) ==> TakesFromSome(h, value, x, y, e))
  }

  /** `x` refines `y`, and its order explains every load of `y`. */
  ghost predicate RefinesInMemory(x: PartialString, y: PartialString)
  {
    exists h, value: nat -> int :: HappensIn(h, value, x, y)
  }

  lemma KindsDiffer(l: Label)
    ensures !(IsReleaseStore(l) && IsAcquireLoad(l)) && !(IsAssumeEq(l) && IsAssumeNeq(l))
  {
  }

  lemma ImageOrder(h: seq<nat>, value: nat -> int, x: PartialString, y: PartialString, e: nat, f: nat)
    requires RefinementLaws.IsMorphism(h, y, x) && e < |y.labels| && f < |y.labels|
    ensures Pulled(RefinementEncoding.ModelOf(h, x), value, _ => -1).order(e, f) <==> Follows(h, x, e, f)
  {
  }

  /** One load of an execution. */
  lemma LatestIsTaken(h: seq<nat>, value: nat -> int, x: PartialString, y: PartialString, a: nat, e: nat)
    requires RefinementLaws.IsMorphism(h, y, x) && IsLoad(y, e)
    ensures ReadsLatestFrom(MemoryOf(y), a, e, Pulled(RefinementEncoding.ModelOf(h, x), value, _ => -1)) <==>
      TakesFrom(h, value, x, y, a, e) && FitsAssumption(y, a, e)
  {
    var w, m := MemoryOf(y), Pulled(RefinementEncoding.ModelOf(h, x), value, _ => -1);
    forall b: nat ensures w.Store(b) <==> IsStore(y, b) {}
    if IsStore(y, a) && SameAddress(y, a, e) {
      ImageOrder(h, value, x, y, a, e);
      forall b: nat | IsStore(y, b) && SameAddress(y, b, e) && b != a
        ensures m.order(b, a) || m.order(e, b) <==> Follows(h, x, b, a) || Follows(h, x, e, b)
      {
        ImageOrder(h, value, x, y, b, a);
        ImageOrder(h, value, x, y, e, b);
      }
      NoneBetweenMeans(y, a, e, m);
    }
  }

  ghost predicate FitsAssumption(y: PartialString, a: nat, e: nat)
  {
    && a < |y.labels| && e < |y.labels|
    && (IsAssumeEq(y.labels[e]) ==> Byte(y.labels[a]) == Byte(y.labels[e]))
    && (IsAssumeNeq(y.labels[e]) ==> Byte(y.labels[a]) != Byte(y.labels[e]))
  }

  lemma NoneBetweenMeans(y: PartialString, a: nat, e: nat, m: Model)
    requires a < |y.labels| && e < |y.labels|
    ensures NoneBetween(MemoryOf(y), a, e, m) <==>
      forall b: nat :: IsStore(y, b) && SameAddress(y, b, e) && b != a ==> m.order(b, a) || m.order(e, b)
  {
    forall b: nat ensures MemoryOf(y).Runs(b, m) {
      AllRun(y, b, m);
    }
  }

  lemma ExecutionHappens(h: seq<nat>, value: nat -> int, x: PartialString, y: PartialString)
    requires ExecutesBy(h, value, x, y)
    ensures HappensIn(h, value, x, y)
  {
    var w, m := MemoryOf(y), Pulled(RefinementEncoding.ModelOf(h, x), value, _ => -1);
    forall e: nat | IsLoad(y, e) ensures TakesFromSome(h, value, x, y, e) && FitsLabel(y.labels[e], value(e)) {
      AllRun(y, e, m);
      assert w.Load(e) && ReadsLatest(w, e, m);
      var a: nat :| ReadsLatestFrom(w, a, e, m);
      LatestIsTaken(h, value, x, y, a, e);
      KindsDiffer(y.labels[e]);
    }
    forall e: nat | IsStore(y, e) ensures FitsLabel(y.labels[e], value(e)) {
      assert w.Store(e);
      KindsDiffer(y.labels[e]);
    }
    forall a: nat, b: nat | IsStore(y, a) && IsStore(y, b) && SameAddress(y, a, b) && a != b
      ensures Follows(h, x, a, b) || Follows(h, x, b, a)
    {
      assert w.Store(a) && w.Store(b) && w.Shared(a, b) && w.Shared(b, a);
      ImageOrder(h, value, x, y, a, b);
      ImageOrder(h, value, x, y, b, a);
    }
  }

  lemma HappeningExecutes(h: seq<nat>, value: nat -> int, x: PartialString, y: PartialString)
    requires HappensIn(h, value, x, y)
    ensures ExecutesBy(h, value, x, y)
  {
    var w, m := MemoryOf(y), Pulled(RefinementEncoding.ModelOf(h, x), value, _ => -1);
    forall e: nat | w.Load(e) ensures ReadsLatest(w, e, m) {
      assert IsLoad(y, e) && TakesFromSome(h, value, x, y, e);
      var a: nat :| TakesFrom(h, value, x, y, a, e);
      LatestIsTaken(h, value, x, y, a, e);
      assert ReadsLatestFrom(w, a, e, m);
    }
    forall e: nat | w.Store(e) ensures m.value(e) == Byte(w.labels[e]) {
      assert IsStore(y, e);
    }
    forall a: nat, b: nat | w.Store(a) && w.Store(b) && w.Shared(a, b) && a < b ensures m.order(a, b) || m.order(b, a) {
      assert IsStore(y, a) && IsStore(y, b) && SameAddress(y, a, b);
      ImageOrder(h, value, x, y, a, b);
      ImageOrder(h, value, x, y, b, a);
    }
  }

  /** What memory refinement says about the events themselves. */
  lemma MemoryRefinesMeans(x: PartialString, y: PartialString)
    ensures MemoryRefines(x, y) <==> RefinesInMemory(x, y)
  {
    if MemoryRefines(x, y) {
      var h, value :| ExecutesBy(h, value, x, y);
      ExecutionHappens(h, value, x, y);
    }
    if RefinesInMemory(x, y) {
      var h, value: nat -> int :| HappensIn(h, value, x, y);
      HappeningExecutes(h, value, x, y);
    }
  }

  // ---- From models to executions and back -----------------------------------------------------

  ghost predicate SameOrderOver(m: Model, m': Model, n: nat)
  {
    m.value == m'.value && forall a: nat, b: nat :: a < n && b < n ==> (m.order(a, b) <==> m'.order(a, b))
  }

  lemma AllRun(y: PartialString, e: Event, m: Model)
    ensures MemoryOf(y).Runs(e, m)
  {
  }

  lemma LatestTransfers(y: PartialString, l: Event, m: Model, m': Model)
    requires SameOrderOver(m, m', |y.labels|) && ReadsLatest(MemoryOf(y), l, m)
    ensures ReadsLatest(MemoryOf(y), l, m')
  {
    var w := MemoryOf(y);
    var a: nat :| ReadsLatestFrom(w, a, l, m);
    forall b: nat | w.Store(b) && w.Shared(b, l) && b != a && w.Runs(b, m') ensures m'.order(b, a) || m'.order(l, b) {
      AllRun(y, b, m);
    }
    assert ReadsLatestFrom(w, a, l, m');
  }

  lemma ExecutionTransfers(y: PartialString, m: Model, m': Model)
    requires SameOrderOver(m, m', |y.labels|) && Execution(MemoryOf(y), m)
    ensures Execution(MemoryOf(y), m')
  {
    var w := MemoryOf(y);
    forall l: nat | w.Load(l) ensures ReadsLatest(w, l, m') {
      AllRun(y, l, m);
      assert Contradicted(w, l, m) || ReadsLatest(w, l, m);
      LatestTransfers(y, l, m, m');
    }
  }

  lemma ModelGivesExecution(x: PartialString, y: PartialString, m: RefinementEncoding.Model,
                            value: nat -> int, source: nat -> int)
    requires PartialStrings.Valid(x) && PartialStrings.Valid(y) && x.length == y.length
    requires RefinementEncoding.Encodes(x, y, m) && MemoryAxioms(MemoryOf(y), Pulled(m, value, source))
    ensures MemoryRefines(x, y) && RefinesInMemory(x, y)
  {
    MemoryRefinesMeans(x, y);
    var h := RefinementEncoding.ModelGivesMorphism(x, y, m);
    var before, after := Pulled(m, value, source), Pulled(RefinementEncoding.ModelOf(h, x), value, _ => -1);
    forall a: nat, b: nat | a < |y.labels| && b < |y.labels| ensures before.order(a, b) <==> after.order(a, b) {
      RefinementEncoding.ModelOrderIsExact(x, m, h[a], h[b]);
    }
    ModelIsExecution(MemoryOf(y), before);
    ExecutionTransfers(y, before, after);
    assert ExecutesBy(h, value, x, y);
  }

  lemma MorphismIsStrict(h: seq<nat>, value: nat -> int, source: nat -> int, x: PartialString, n: nat)
    requires PartialStrings.StrictOrder(x)
    ensures StrictOver(Pulled(RefinementEncoding.ModelOf(h, x), value, source).order, n)
  {
    var m := Pulled(RefinementEncoding.ModelOf(h, x), value, source);
    var image := RefinementEncoding.ModelOf(h, x).image;
    forall a: nat, b: nat, c: nat | m.order(a, b) && m.order(b, c) ensures m.order(a, c) {
      ClosureTransitive(x.order, image(a), image(b), image(c));
    }
    forall e: nat ensures !m.order(e, e) {
      assert !PartialStrings.Before(x, image(e), image(e));
    }
  }

  lemma ExecutionHasSources(h: seq<nat>, value: nat -> int, x: PartialString, y: PartialString)
    returns (source: nat -> int)
    requires PartialStrings.StrictOrder(x) && ExecutesBy(h, value, x, y)
    ensures MemoryAxioms(MemoryOf(y), Pulled(RefinementEncoding.ModelOf(h, x), value, source))
  {
    var w, m := MemoryOf(y), Pulled(RefinementEncoding.ModelOf(h, x), value, _ => -1);
    MorphismIsStrict(h, value, _ => -1, x, |y.labels|);
    source := WithSources(w, m).source;
    ExecutionGivesModel(w, m);
    AxiomsTransfer(y, WithSources(w, m), Pulled(RefinementEncoding.ModelOf(h, x), value, source));
  }

  lemma AxiomsTransfer(y: PartialString, m: Model, m': Model)
    requires SameOrderOver(m, m', |y.labels|) && m.source == m'.source && MemoryAxioms(MemoryOf(y), m)
    ensures MemoryAxioms(MemoryOf(y), m')
  {
    var w := MemoryOf(y);
    forall l: nat | w.Load(l) ensures ReadAxioms(w, l, m') {
      assert ReadAxioms(w, l, m);
      assert ReadsFromSome(w, l, m) ==> ReadsFromSome(w, l, m');
      forall a: nat ensures SynchronizesWith(w, a, l, m') {
        assert SynchronizesWith(w, a, l, m);
        AllRun(y, a, m');
      }
      forall a: nat, b: nat | w.Store(b) && w.Shared(a, b) ensures FromReadPair(w, a, b, l, m') {
        assert FromReadPair(w, a, b, l, m);
        AllRun(y, b, m);
      }
      AllRun(y, l, m);
    }
  }

  /** The two encodings together are satisfiable exactly for memory refinements. */
  lemma MemoryEncodingExact(x: PartialString, y: PartialString, memory: seq<Constraint>,
                            morphism: seq<RefinementEncoding.Constraint>)
    requires PartialStrings.Valid(x) && PartialStrings.Valid(y) && x.length == y.length
    requires forall m :: AllHold(memory, m) <==> MemoryAxioms(MemoryOf(y), m)
    requires forall m :: RefinementEncoding.AllHold(morphism, m) <==> RefinementEncoding.Encodes(x, y, m)
    ensures Satisfiable(memory, morphism) <==> MemoryRefines(x, y)
    ensures Satisfiable(memory, morphism) <==> RefinesInMemory(x, y)
  {
    MemoryRefinesMeans(x, y);
    if Satisfiable(memory, morphism) {
      var m: RefinementEncoding.Model, value: nat -> int, source: nat -> int :|
        RefinementEncoding.AllHold(morphism, m) && AllHold(memory, Pulled(m, value, source));
      ModelGivesExecution(x, y, m, value, source);
    }
    if MemoryRefines(x, y) {
      var h, value :| ExecutesBy(h, value, x, y);
      var source := ExecutionHasSources(h, value, x, y);
      RefinementEncoding.MorphismGivesModel(h, x, y);
      var m := RefinementEncoding.ModelOf(h, x);
      assert RefinementEncoding.AllHold(morphism, m) && AllHold(memory, Pulled(m, value, source));
    }
  }

  lemma NoModelNoRefinement(x: PartialString, y: PartialString)
    requires PartialStrings.Valid(x) && forall m :: !MemoryAxioms(MemoryOf(y), m)
    ensures !MemoryRefines(x, y)
  {
    forall h, value ensures !ExecutesBy(h, value, x, y) {
      if ExecutesBy(h, value, x, y) {
        var source := ExecutionHasSources(h, value, x, y);
        assert false;
      }
    }
  }

  ghost predicate Trustworthy(
    oracle: (seq<Constraint>, seq<RefinementEncoding.Constraint>) -> RefinementEncoding.Answer)
  {
    forall memory, morphism ::
      && (oracle(memory, morphism) == RefinementEncoding.Sat ==> Satisfiable(memory, morphism))
      && (oracle(memory, morphism) == RefinementEncoding.Unsat ==> !Satisfiable(memory, morphism))
  }

  /** Does `x` refine `y` when `y` satisfies the memory axioms? The query is what the solver
      was asked, if it was. */
  method Check(x: PartialString, y: PartialString,
               oracle: (seq<Constraint>, seq<RefinementEncoding.Constraint>) -> RefinementEncoding.Answer)
    returns (r: bool, ghost memory: seq<Constraint>, ghost morphism: seq<RefinementEncoding.Constraint>)
    requires PartialStrings.Valid(x) && PartialStrings.Valid(y) && y.maxLabel < LABEL_LIMIT && Trustworthy(oracle)
    ensures r ==> MemoryRefines(x, y) && RefinesInMemory(x, y)
    ensures MemoryRefines(x, y) ==> r || oracle(memory, morphism) == RefinementEncoding.Unknown
    ensures RefinesInMemory(x, y) ==> r || oracle(memory, morphism) == RefinementEncoding.Unknown
  {
    MemoryRefinesMeans(x, y);
    memory, morphism := [], [];
    if RefinementEncoding.Mismatch(x, y) {
      RefinementEncoding.ShortcutIsSafe(x, y);
      return false, memory, morphism;
    }
    var unsat, conjuncts := EncodeReleaseAcquire(MemoryOf(y), y.maxLabel, []);
    if unsat {
      NoModelNoRefinement(x, y);
      return false, memory, morphism;
    }
    var cs := RefinementEncoding.EncodeRefinement(x, y, []);
    memory, morphism := conjuncts, cs;
    MemoryEncodingExact(x, y, conjuncts, cs);
    r := oracle(conjuncts, cs) == RefinementEncoding.Sat;
  }
}
