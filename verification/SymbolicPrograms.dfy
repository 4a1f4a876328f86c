/** Symbolic programs: a partial string in which some events are guarded by the assumption
    that an earlier load read a given byte. */
module SymbolicPrograms {
  import opened PartialStrings
  import opened RefinementLaws
  import opened ProgramPowers
  import opened LazyPrograms
  import opened MemoryLabels
  import opened ReleaseAcquire

  datatype SymbolicProgram = SymbolicProgram(assumeMap: AssumeMap, unguarded: Events, p: PartialString)

  /** A guard is an assumption that happens before what it guards. */
  ghost predicate GuardedBy(p: PartialString, guard: Event, e: Event)
  {
    && guard < e && guard < |p.labels| && IsAcquireLoad(p.labels[guard]) && IsAssume(p.labels[guard])
    && PartialStrings.Before(p, guard, e)
  }

  ghost predicate Ascending(es: Events)
  {
    forall i, j :: 0 <= i < j < |es| ==> es[i] < es[j]
  }

  /** Every event is guarded by an assumption before it or listed as unguarded, not both. */
  ghost predicate Structured(s: SymbolicProgram)
  {
    && |s.assumeMap| == s.p.length == |s.p.labels|
    && (forall e :: 0 <= e < |s.assumeMap| && s.assumeMap[e] != e ==> GuardedBy(s.p, s.assumeMap[e], e))
    && (forall e: nat :: e in s.unguarded <==> e < s.p.length && s.assumeMap[e] == e)
    && Ascending(s.unguarded)
  }

  ghost predicate ValidProgram(s: SymbolicProgram)
  {
    PartialStrings.Valid(s.p) && Structured(s)
  }

  /** No more unguarded events than events, and none only in the empty program. */
  lemma UnguardedBounds(s: SymbolicProgram)
    requires Structured(s)
    ensures |s.unguarded| <= s.p.length
    ensures s.unguarded == [] <==> s.p.length == 0
  {
    AscendingBound(s.unguarded, s.p.length);
    if s.p.length > 0 {
      ProgramIsWellGuarded(s);
      assert 0 in s.unguarded;
    }
  }

  lemma {:induction false} AscendingBound(es: Events, n: nat)
    requires Ascending(es) && forall e :: e in es ==> e < n
    ensures |es| <= n
  {
    if es != [] {
      var k := |es| - 1;
      assert es[k] in es;
      forall e | e in es[..k] ensures e < es[k] {
        var i :| 0 <= i < k && es[i] == e;
      }
      AscendingBound(es[..k], es[k]);
    }
  }

  lemma ProgramIsWellGuarded(s: SymbolicProgram)
    requires Structured(s)
    ensures WellGuarded(s.assumeMap, s.p.labels)
  {
    forall e: nat | e < |s.assumeMap| && s.assumeMap[e] != e
      ensures s.assumeMap[e] < e && s.assumeMap[e] < |s.p.labels|
              && IsAcquireLoad(s.p.labels[s.assumeMap[e]]) && IsAssume(s.p.labels[s.assumeMap[e]])
    {
      assert GuardedBy(s.p, s.assumeMap[e], e);
    }
  }

  // ---- Construction -------------------------------------------------------------------------

  function SingleEvent(l: MemoryLabels.Label): (s: SymbolicProgram)
  {
    SymbolicProgram([0], [0], Single(l))
  }

  lemma SingleEventValid(l: MemoryLabels.Label)
    ensures ValidProgram(SingleEvent(l))
  {
    SingleValid(l);
  }

  /** Side by side: the second program's events are renumbered. */
  function Nested(X: SymbolicProgram, Y: SymbolicProgram, p: PartialString): SymbolicProgram
  {
    SymbolicProgram(X.assumeMap + Moved(Y.assumeMap, X.p.length), X.unguarded + Moved(Y.unguarded, X.p.length), p)
  }

  /** `p` keeps the labels and at least the order of its two parts. */
  ghost predicate Combines(p: PartialString, x: PartialString, y: PartialString)
  {
    && p.labels == x.labels + y.labels && p.length == x.length + y.length
    && (forall e: nat, f: nat :: PartialStrings.Before(x, e, f) ==> PartialStrings.Before(p, e, f))
    && (forall e: nat, f: nat :: PartialStrings.Before(y, e, f) ==>
          PartialStrings.Before(p, x.length + e, x.length + f))
  }

  lemma ParCombines(x: PartialString, y: PartialString)
    requires PartialStrings.Valid(x) && PartialStrings.Valid(y)
    ensures Combines(Par(x, y), x, y)
  {
    ParIsUnion(x, y);
    UnionCombines(Par(x, y), x, y);
  }

  lemma UnionCombines(p: PartialString, x: PartialString, y: PartialString)
    requires IsUnion(p, x, y) && EdgesInRange(x.order, x.length) && EdgesInRange(y.order, y.length)
    ensures Combines(p, x, y)
  {
    forall e: nat, f: nat | PartialStrings.Before(x, e, f) ensures PartialStrings.Before(p, e, f) {
      InRange(x.order, x.length, e, f);
      assert ParOrder(x, y, e, f);
    }
    forall e: nat, f: nat | PartialStrings.Before(y, e, f)
      ensures PartialStrings.Before(p, x.length + e, x.length + f)
    {
      InRange(y.order, y.length, e, f);
      assert ParOrder(x, y, x.length + e, x.length + f);
    }
  }

  lemma SeqCombines(x: PartialString, y: PartialString)
    requires PartialStrings.Valid(x) && PartialStrings.Valid(y)
    ensures Combines(Seq(x, y), x, y)
  {
    SeqIsChain(x, y);
    ChainCombines(Seq(x, y), x, y);
  }

  lemma ChainCombines(p: PartialString, x: PartialString, y: PartialString)
    requires IsChain(p, x, y) && EdgesInRange(x.order, x.length) && EdgesInRange(y.order, y.length)
    ensures Combines(p, x, y)
  {
    forall e: nat, f: nat | PartialStrings.Before(x, e, f) ensures PartialStrings.Before(p, e, f) {
      InRange(x.order, x.length, e, f);
      assert SeqOrder(x, y, e, f);
    }
    forall e: nat, f: nat | PartialStrings.Before(y, e, f)
      ensures PartialStrings.Before(p, x.length + e, x.length + f)
    {
      InRange(y.order, y.length, e, f);
      assert SeqOrder(x, y, x.length + e, x.length + f);
    }
  }

  lemma CompositionCombines(op: Operator, x: PartialString, y: PartialString)
    requires PartialStrings.Valid(x) && PartialStrings.Valid(y)
    ensures Combines(Bowtie(op)(x, y), x, y)
  {
    match op
    case Comma => SeqCombines(x, y);
    case Bar => ParCombines(x, y);
  }

  lemma NestedGuards(X: SymbolicProgram, Y: SymbolicProgram, p: PartialString, e: Event)
    requires Structured(X) && Structured(Y) && Combines(p, X.p, Y.p)
    requires e < p.length && Nested(X, Y, p).assumeMap[e] != e
    ensures GuardedBy(p, Nested(X, Y, p).assumeMap[e], e)
  {
    var a := X.p.length;
    if e < a {
      assert GuardedBy(X.p, X.assumeMap[e], e);
    } else {
      assert GuardedBy(Y.p, Y.assumeMap[e - a], e - a);
    }
  }

  lemma NestedStructured(X: SymbolicProgram, Y: SymbolicProgram, p: PartialString)
    requires Structured(X) && Structured(Y) && Combines(p, X.p, Y.p)
    ensures Structured(Nested(X, Y, p))
  {
    var s, a := Nested(X, Y, p), X.p.length;
    forall e: nat | e < |s.assumeMap| && s.assumeMap[e] != e ensures GuardedBy(p, s.assumeMap[e], e) {
      NestedGuards(X, Y, p, e);
    }
    forall e: nat ensures e in s.unguarded <==> e < p.length && s.assumeMap[e] == e {
      MovedMembers(Y.unguarded, a, e);
      assert e in s.unguarded <==> e in X.unguarded || e in Moved(Y.unguarded, a);
    }
    forall i, j | 0 <= i < j < |s.unguarded| ensures s.unguarded[i] < s.unguarded[j] {
      if i < |X.unguarded| <= j {
        assert X.unguarded[i] in X.unguarded;
      }
    }
  }

  /** The events of `es`, renumbered, after those of `r`. */
  method AppendMoved(r0: Events, es: Events, offset: nat) returns (r: Events)
    ensures r == r0 + Moved(es, offset)
  {
    r := r0;
    for i := 0 to |es|
      invariant r == r0 + Moved(es[..i], offset)
    {
      r := r + [offset + es[i]];
      assert es[..i + 1] == es[..i] + [es[i]];
    }
    assert es[..|es|] == es;
  }

  method Nest(X: SymbolicProgram, Y: SymbolicProgram, p: PartialString) returns (s: SymbolicProgram)
    requires Structured(X) && Structured(Y) && Combines(p, X.p, Y.p)
    ensures s == Nested(X, Y, p) && Structured(s)
  {
    var assumeMap := AppendMoved(X.assumeMap, Y.assumeMap, X.p.length);
    var unguarded := AppendMoved(X.unguarded, Y.unguarded, X.p.length);
    s := SymbolicProgram(assumeMap, unguarded, p);
    NestedStructured(X, Y, p);
  }

  /** `X | Y` and `X , Y`. */
  method ComposeSymbolic(op: Operator, X: SymbolicProgram, Y: SymbolicProgram) returns (s: SymbolicProgram)
    requires ValidProgram(X) && ValidProgram(Y)
    ensures s == Nested(X, Y, Bowtie(op)(X.p, Y.p)) && ValidProgram(s)
    ensures IsComposition(op, s.p, X.p, Y.p)
  {
    var p := Compose(op, X.p, Y.p);
    CompositionCombines(op, X.p, Y.p);
    s := Nest(X, Y, p);
  }

  /** Events of a body after one assumption; the unguarded ones get it as their guard. */
  function GuardedMap(guards: AssumeMap): (r: AssumeMap)
    ensures |r| == 1 + |guards| && r[0] == 0
    ensures forall k :: 0 < k < |r| ==> r[k] == if guards[k - 1] == k - 1 then 0 else 1 + guards[k - 1]
  {
    [0] + seq(|guards|, e requires 0 <= e < |guards| => if guards[e] == e then 0 else 1 + guards[e])
  }

  /** If a load of `address` reads `byte`, then `P`. */
  function Conditional(address: nat, byte: nat, P: SymbolicProgram): SymbolicProgram
  {
    SymbolicProgram(GuardedMap(P.assumeMap), [0], Seq(Single(AssumeEqLabel(address, byte)), P.p))
  }

  /** Sets the guard of every unguarded event of the body to the first event. */
  method GuardBody(assumeMap0: AssumeMap, unguarded: Events) returns (assumeMap: AssumeMap)
    requires forall e :: e in unguarded ==> 1 + e < |assumeMap0|
    ensures |assumeMap| == |assumeMap0|
    ensures forall e :: 0 <= e < |assumeMap| ==>
      assumeMap[e] == if e > 0 && e - 1 in unguarded then 0 else assumeMap0[e]
  {
    assumeMap := assumeMap0;
    for i := 0 to |unguarded|
      invariant |assumeMap| == |assumeMap0|
      invariant forall e :: 0 <= e < |assumeMap| ==>
        assumeMap[e] == if e > 0 && e - 1 in unguarded[..i] then 0 else assumeMap0[e]
    {
      assert unguarded[i] in unguarded;
      assumeMap := assumeMap[1 + unguarded[i] := 0];
      assert unguarded[..i + 1] == unguarded[..i] + [unguarded[i]];
    }
    assert unguarded[..|unguarded|] == unguarded;
  }

  method IfThen(address: nat, byte: nat, P: SymbolicProgram) returns (Q: SymbolicProgram)
    requires ValidProgram(P) && address < ADDRESS_LIMIT && byte < BYTE_LIMIT
    ensures Q == Conditional(address, byte, P) && ValidProgram(Q)
    ensures IsChain(Q.p, Single(AssumeEqLabel(address, byte)), P.p)
  {
    var Assume := SingleEvent(AssumeEqLabel(address, byte));
    SingleEventValid(AssumeEqLabel(address, byte));
    Q := ComposeSymbolic(Comma, Assume, P);
    var assumeMap := GuardBody(Q.assumeMap, P.unguarded);
    BodyIsGuarded(P, assumeMap);
    Q := SymbolicProgram(assumeMap, Q.unguarded[..1], Q.p);
    ConditionalValid(address, byte, P);
  }

  lemma BodyIsGuarded(P: SymbolicProgram, assumeMap: AssumeMap)
    requires Structured(P) && |assumeMap| == 1 + |P.assumeMap| && assumeMap[0] == 0
    requires forall e :: 0 <= e < |assumeMap| ==>
      assumeMap[e] == if e > 0 && e - 1 in P.unguarded then 0 else ([0] + Moved(P.assumeMap, 1))[e]
    ensures assumeMap == GuardedMap(P.assumeMap)
  {
    forall k: nat | 0 < k < |assumeMap| ensures assumeMap[k] == GuardedMap(P.assumeMap)[k] {
      assert k - 1 in P.unguarded <==> P.assumeMap[k - 1] == k - 1;
    }
  }

  lemma BodyGuards(x: PartialString, P: SymbolicProgram, p: PartialString, e: Event)
    requires Structured(P) && IsChain(p, x, P.p) && e < P.p.length
    requires EdgesInRange(P.p.order, P.p.length)
    requires x.length == |x.labels| == 1 && IsAcquireLoad(x.labels[0]) && IsAssume(x.labels[0])
    ensures GuardedBy(p, if P.assumeMap[e] == e then 0 else 1 + P.assumeMap[e], 1 + e)
  {
    var g := P.assumeMap[e];
    if g == e {
      assert SeqOrder(x, P.p, 0, 1 + e);
    } else {
      assert GuardedBy(P.p, g, e);
      assert SeqOrder(x, P.p, 1 + g, 1 + e);
      assert p.labels[1 + g] == P.p.labels[g];
    }
  }

  lemma ConditionalValid(address: nat, byte: nat, P: SymbolicProgram)
    requires ValidProgram(P) && address < ADDRESS_LIMIT && byte < BYTE_LIMIT
    ensures ValidProgram(Conditional(address, byte, P))
  {
    var x := Single(AssumeEqLabel(address, byte));
    SingleValid(AssumeEqLabel(address, byte));
    LabelsDecode(address, byte);
    FlagsDecide(AssumeEqLabel(address, byte), address, byte, 15);
    SeqIsChain(x, P.p);
    BodyStructured(x, P, Seq(x, P.p));
  }

  lemma BodyStructured(x: PartialString, P: SymbolicProgram, p: PartialString)
    requires Structured(P) && IsChain(p, x, P.p) && EdgesInRange(P.p.order, P.p.length)
    requires x.length == |x.labels| == 1 && IsAcquireLoad(x.labels[0]) && IsAssume(x.labels[0])
    ensures Structured(SymbolicProgram(GuardedMap(P.assumeMap), [0], p))
  {
    var guards := GuardedMap(P.assumeMap);
    forall e: nat | 0 < e < |guards| ensures GuardedBy(p, guards[e], e) {
      BodyGuards(x, P, p, e - 1);
    }
    GuardedMapStructured(P.assumeMap, p);
  }

  lemma GuardedMapStructured(guards: AssumeMap, p: PartialString)
    requires |p.labels| == p.length == 1 + |guards|
    requires forall e :: 0 < e < |GuardedMap(guards)| ==> GuardedBy(p, GuardedMap(guards)[e], e)
    ensures Structured(SymbolicProgram(GuardedMap(guards), [0], p))
  {
    forall e: nat ensures e in [0] <==> e < p.length && GuardedMap(guards)[e] == e {
      assert 0 < e < p.length ==> GuardedBy(p, GuardedMap(guards)[e], e);
    }
  }

  // ---- What guards mean -----------------------------------------------------------------------

  /** The values that the events from `offset` on read and write. */
  ghost function Part(m: Model, offset: nat): Model
  {
    m.(value := (e: nat) => m.value(offset + e))
  }

  lemma ConditionalLabels(address: nat, byte: nat, P: SymbolicProgram)
    ensures var Q := Conditional(address, byte, P);
      Q.assumeMap == GuardedMap(P.assumeMap) && Q.p.labels == [AssumeEqLabel(address, byte)] + P.p.labels
  {
  }

  lemma GuardedMapWellGuarded(guards: AssumeMap, labels: seq<MemoryLabels.Label>, l: MemoryLabels.Label)
    requires WellGuarded(guards, labels) && IsAcquireLoad(l) && IsAssume(l)
    ensures WellGuarded(GuardedMap(guards), [l] + labels)
  {
    forall e | 0 <= e < |GuardedMap(guards)| && GuardedMap(guards)[e] != e
      ensures var g := GuardedMap(guards)[e];
        g < e && g <= |labels| && IsAcquireLoad(([l] + labels)[g]) && IsAssume(([l] + labels)[g])
    {
      assert guards[e - 1] != e - 1 ==> guards[e - 1] < e - 1 && guards[e - 1] < |labels|;
    }
  }

  /** The branch body runs exactly when the load reads the byte and the body itself runs. */
  lemma ConditionalRuns(address: nat, byte: nat, P: SymbolicProgram, e: Event, m: Model)
    requires Structured(P) && address < ADDRESS_LIMIT && byte < BYTE_LIMIT && e < P.p.length
    ensures WellGuarded(P.assumeMap, P.p.labels)
    ensures var guards, labels := GuardedMap(P.assumeMap), [AssumeEqLabel(address, byte)] + P.p.labels;
      && Conditional(address, byte, P).assumeMap == guards && Conditional(address, byte, P).p.labels == labels
      && WellGuarded(guards, labels)
      && Enabled(guards, labels, 0, m)
      && (Enabled(guards, labels, 1 + e, m) <==>
            m.value(0) == byte && Enabled(P.assumeMap, P.p.labels, e, Part(m, 1)))
  {
    ConditionalLabels(address, byte, P);
    ProgramIsWellGuarded(P);
    LabelsDecode(address, byte);
    FlagsDecide(AssumeEqLabel(address, byte), address, byte, 15);
    GuardedMapWellGuarded(P.assumeMap, P.p.labels, AssumeEqLabel(address, byte));
    GuardedRuns(P.assumeMap, P.p.labels, GuardedMap(P.assumeMap), [AssumeEqLabel(address, byte)] + P.p.labels, e, m);
  }

  lemma GuardedRuns(guards': AssumeMap, labels': seq<MemoryLabels.Label>, guards: AssumeMap,
                    labels: seq<MemoryLabels.Label>, e: Event, m: Model)
    requires WellGuarded(guards', labels') && WellGuarded(guards, labels) && e < |guards'| == |labels'|
    requires guards == GuardedMap(guards') && labels != [] && labels == [labels[0]] + labels' && IsAssumeEq(labels[0])
    ensures Enabled(guards, labels, 0, m)
    ensures Enabled(guards, labels, 1 + e, m) <==>
      m.value(0) == Byte(labels[0]) && Enabled(guards', labels', e, Part(m, 1))
  {
    BodyRuns(guards, labels, guards', labels', e, m);
  }

  lemma {:induction false} BodyRuns(guards: AssumeMap, labels: seq<MemoryLabels.Label>,
                                    guards': AssumeMap, labels': seq<MemoryLabels.Label>, e: Event, m: Model)
    requires WellGuarded(guards, labels) && WellGuarded(guards', labels') && |guards'| == |labels'|
    requires labels != [] && IsAssumeEq(labels[0]) && labels == [labels[0]] + labels'
    requires |guards| == 1 + |guards'| && guards[0] == 0
    requires forall k :: 0 < k < |guards| ==> guards[k] == if guards'[k - 1] == k - 1 then 0 else 1 + guards'[k - 1]
    requires e < |guards'|
    ensures Enabled(guards, labels, 0, m)
    ensures Enabled(guards, labels, 1 + e, m) <==>
      m.value(0) == Byte(labels[0]) && Enabled(guards', labels', e, Part(m, 1))
    decreases e
  {
    var g := guards'[e];
    if g != e {
      BodyRuns(guards, labels, guards', labels', g, m);
      assert labels[1 + g] == labels'[g];
      assert Assumption(labels, 1 + g, m) <==> Assumption(labels', g, Part(m, 1));
    }
  }

  /** Composition leaves the guards of both sides alone. */
  lemma NestedRuns(X: SymbolicProgram, Y: SymbolicProgram, p: PartialString, e: Event, m: Model)
    requires Structured(X) && Structured(Y) && Combines(p, X.p, Y.p) && e < p.length
    ensures WellGuarded(X.assumeMap, X.p.labels) && WellGuarded(Y.assumeMap, Y.p.labels)
    ensures var s := Nested(X, Y, p);
      && WellGuarded(s.assumeMap, p.labels)
      && (Enabled(s.assumeMap, p.labels, e, m) <==>
            if e < X.p.length then Enabled(X.assumeMap, X.p.labels, e, m)
            else Enabled(Y.assumeMap, Y.p.labels, e - X.p.length, Part(m, X.p.length)))
  {
    NestedWellGuarded(X, Y, p);
    Parts(X, Y, p);
    BothRun(X, Y, Nested(X, Y, p).assumeMap, p.labels, e, m);
  }

  lemma NestedWellGuarded(X: SymbolicProgram, Y: SymbolicProgram, p: PartialString)
    requires Structured(X) && Structured(Y) && Combines(p, X.p, Y.p)
    ensures WellGuarded(X.assumeMap, X.p.labels) && WellGuarded(Y.assumeMap, Y.p.labels)
    ensures WellGuarded(Nested(X, Y, p).assumeMap, p.labels)
  {
    NestedStructured(X, Y, p);
    ProgramIsWellGuarded(Nested(X, Y, p));
    ProgramIsWellGuarded(X);
    ProgramIsWellGuarded(Y);
  }

  lemma BothRun(X: SymbolicProgram, Y: SymbolicProgram, all: AssumeMap, labels: seq<MemoryLabels.Label>, e: Event,
                m: Model)
    requires WellGuarded(X.assumeMap, X.p.labels) && WellGuarded(Y.assumeMap, Y.p.labels) && WellGuarded(all, labels)
    requires |X.assumeMap| == X.p.length == |X.p.labels| && |Y.assumeMap| == |Y.p.labels| && e < |labels|
    requires StartsWith(all, labels, X.assumeMap, X.p.labels)
    requires EndsWith(all, labels, Y.assumeMap, Y.p.labels, X.p.length)
    ensures Enabled(all, labels, e, m) <==>
      if e < X.p.length then Enabled(X.assumeMap, X.p.labels, e, m)
      else Enabled(Y.assumeMap, Y.p.labels, e - X.p.length, Part(m, X.p.length))
  {
    if e < X.p.length {
      FirstRuns(all, labels, X.assumeMap, X.p.labels, e, m);
    } else {
      SecondRuns(all, labels, Y.assumeMap, Y.p.labels, X.p.length, e - X.p.length, m);
    }
  }

  ghost predicate StartsWith(guards: AssumeMap, labels: seq<MemoryLabels.Label>, guards': AssumeMap,
                             labels': seq<MemoryLabels.Label>)
  {
    && |guards'| <= |guards| && (forall i :: 0 <= i < |guards'| ==> guards[i] == guards'[i])
    && |labels'| <= |labels| && (forall i :: 0 <= i < |labels'| ==> labels[i] == labels'[i])
  }

  ghost predicate EndsWith(guards: AssumeMap, labels: seq<MemoryLabels.Label>, guards': AssumeMap,
                           labels': seq<MemoryLabels.Label>, n: nat)
  {
    && |guards| == n + |guards'| && (forall i :: 0 <= i < |guards'| ==> guards[n + i] == n + guards'[i])
    && |labels| == n + |labels'| && (forall i :: 0 <= i < |labels'| ==> labels[n + i] == labels'[i])
  }

  lemma Parts(X: SymbolicProgram, Y: SymbolicProgram, p: PartialString)
    requires |X.assumeMap| == X.p.length == |X.p.labels| && p.labels == X.p.labels + Y.p.labels
    ensures var all := Nested(X, Y, p).assumeMap;
      && StartsWith(all, p.labels, X.assumeMap, X.p.labels)
      && EndsWith(all, p.labels, Y.assumeMap, Y.p.labels, X.p.length)
  {
  }

  lemma {:induction false} FirstRuns(guards: AssumeMap, labels: seq<MemoryLabels.Label>,
                                     guards': AssumeMap, labels': seq<MemoryLabels.Label>, e: Event, m: Model)
    requires WellGuarded(guards, labels) && WellGuarded(guards', labels') && |guards'| == |labels'|
    requires StartsWith(guards, labels, guards', labels')
    requires e < |guards'|
    ensures Enabled(guards, labels, e, m) <==> Enabled(guards', labels', e, m)
    decreases e
  {
    var g := guards'[e];
    assert guards[e] == g;
    if g != e {
      FirstRuns(guards, labels, guards', labels', g, m);
      assert labels[g] == labels'[g];
    }
  }

  lemma {:induction false} SecondRuns(guards: AssumeMap, labels: seq<MemoryLabels.Label>, guards': AssumeMap,
                                      labels': seq<MemoryLabels.Label>, n: nat, e: Event, m: Model)
    requires WellGuarded(guards, labels) && WellGuarded(guards', labels') && |guards'| == |labels'|
    requires EndsWith(guards, labels, guards', labels', n)
    requires e < |guards'|
    ensures Enabled(guards, labels, n + e, m) <==> Enabled(guards', labels', e, Part(m, n))
    decreases e
  {
    var g := guards'[e];
    if g != e {
      SecondRuns(guards, labels, guards', labels', n, g, m);
      assert Assumption(labels, n + g, m) <==> Assumption(labels', g, Part(m, n));
    }
  }
}
