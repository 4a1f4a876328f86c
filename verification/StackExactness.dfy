/** The stack encoding describes exactly the runs of a real stack in which no pop is disabled. */
module StackExactness {
  import opened Events
  import opened Sorting

  datatype StackOp = Push(e: Event) | Pop(e: Event)

  ghost function TimeOfOp(time: EventId -> int): StackOp -> int
  {
    (op: StackOp) => time(op.e.id)
  }

  function Ops(a: EventKinds): (ops: seq<StackOp>)
    ensures |ops| == |a.pushes| + |a.pops|
    ensures forall i :: 0 <= i < |ops| ==>
      ops[i] == if i < |a.pushes| then Push(a.pushes[i]) else Pop(a.pops[i - |a.pushes|])
    ensures forall e :: Push(e) in ops <==> e in a.pushes
    ensures forall e :: Pop(e) in ops <==> e in a.pops
  {
    var pushes := seq(|a.pushes|, i requires 0 <= i < |a.pushes| => Push(a.pushes[i]));
    var pops := seq(|a.pops|, i requires 0 <= i < |a.pops| => Pop(a.pops[i]));
    assert forall e :: Push(e) in pushes <==> e in a.pushes by {
      forall e | e in a.pushes ensures Push(e) in pushes {
        var i :| 0 <= i < |a.pushes| && a.pushes[i] == e;
        assert pushes[i] == Push(e);
      }
    }
    assert forall e :: Pop(e) in pops <==> e in a.pops by {
      forall e | e in a.pops ensures Pop(e) in pops {
        var i :| 0 <= i < |a.pops| && a.pops[i] == e;
        assert pops[i] == Pop(e);
      }
    }
    pushes + pops
  }

  /** Running the operations, in order, on an empty stack.  Disabled operations do nothing;
      an enabled pop must find on top the push it flows from, with its value. */
  datatype Outcome = Stuck | Stack(items: seq<Event>)

  ghost function After(ops: seq<StackOp>, m: Model): Outcome
  {
    if ops == [] then Stack([])
    else
      match After(ops[..|ops| - 1], m)
      case Stuck => Stuck
      case Stack(s) =>
        match ops[|ops| - 1]
        case Push(e) => if m.Guard(e) then Stack(s + [e]) else Stack(s)
        case Pop(e) => if !m.Guard(e) then Stack(s) else if Takes(s, e, m) then Stack(s[..|s| - 1]) else Stuck
  }

  ghost predicate Takes(s: seq<Event>, pop: Event, m: Model)
  {
    s != [] && m.Flows(PopFrom, s[|s| - 1], pop) && m.Value(s[|s| - 1]) == m.Value(pop)
  }

  /** `ops` are the operations of stack `a`, one after the other in time. */
  ghost predicate InOrder(ops: seq<StackOp>, a: EventKinds, m: Model)
  {
    && (forall e :: Push(e) in ops <==> e in a.pushes)
    && (forall e :: Pop(e) in ops <==> e in a.pops)
    && (forall i, j :: 0 <= i < j < |ops| ==> m.Time(ops[i].e) < m.Time(ops[j].e))
  }

  ghost predicate PoppedWithin(ops: seq<StackOp>, n: nat, e: Event, m: Model)
    requires n <= |ops|
  {
    exists q :: 0 <= q < n && PopsAt(ops, q, m) && m.Flows(PopFrom, e, ops[q].e)
  }

  /** The operation at position `q` is an enabled pop. */
  ghost predicate PopsAt(ops: seq<StackOp>, q: nat, m: Model)
    requires q < |ops|
  {
    ops[q].Pop? && m.Guard(ops[q].e)
  }

  ghost predicate PushedWithin(ops: seq<StackOp>, n: nat, e: Event)
    requires n <= |ops|
  {
    exists p :: 0 <= p < n && ops[p] == Push(e)
  }

  /** The pop at position `q` flows from an earlier push. */
  ghost predicate HasEarlierPush(ops: seq<StackOp>, q: nat, m: Model)
    requires q < |ops|
  {
    exists p :: 0 <= p < q && ops[p].Push? && m.Flows(PopFrom, ops[p].e, ops[q].e)
  }

  /** On the stack are the enabled pushes not yet popped, oldest first. */
  ghost predicate Holding(ops: seq<StackOp>, n: nat, s: seq<Event>, m: Model)
    requires n <= |ops|
  {
    && (forall i, j :: 0 <= i < j < |s| ==> m.Time(s[i]) < m.Time(s[j]))
    && (forall e :: e in s <==> PushedWithin(ops, n, e) && m.Guard(e) && !PoppedWithin(ops, n, e, m))
    && (forall q :: 0 <= q < n && PopsAt(ops, q, m) ==> HasEarlierPush(ops, q, m))
  }

  /** Events at different times are different, so an event is determined by its
      identifier. */
  lemma SameId(ops: seq<StackOp>, a: EventKinds, m: Model, i: nat, j: nat)
    requires InOrder(ops, a, m) && i < |ops| && j < |ops| && ops[i].e.id == ops[j].e.id
    ensures i == j
  {
    assert i < j ==> m.Time(ops[i].e) < m.Time(ops[j].e);
    assert j < i ==> m.Time(ops[j].e) < m.Time(ops[i].e);
  }

  lemma {:induction false} RunHolds(ops: seq<StackOp>, a: EventKinds, m: Model, n: nat)
    requires InOrder(ops, a, m) && n <= |ops| && After(ops[..n], m).Stack?
    ensures Holding(ops, n, After(ops[..n], m).items, m)
  {
    if n > 0 {
      assert ops[..n][..n - 1] == ops[..n - 1];
      RunHolds(ops, a, m, n - 1);
      var s := After(ops[..n - 1], m).items;
      match ops[n - 1]
      case Push(e) => PushKeeps(ops, a, m, n, e, s);
      case Pop(e) =>
        if m.Guard(e) {
          PopKeeps(ops, a, m, n, e, s);
        } else {
          DisabledKeeps(ops, m, n, s);
        }
    }
  }

  lemma OneMore(ops: seq<StackOp>, n: nat, m: Model, e: Event)
    requires 0 < n <= |ops|
    ensures PushedWithin(ops, n, e) <==> PushedWithin(ops, n - 1, e) || ops[n - 1] == Push(e)
    ensures PoppedWithin(ops, n, e, m) <==>
      PoppedWithin(ops, n - 1, e, m) || (PopsAt(ops, n - 1, m) && m.Flows(PopFrom, e, ops[n - 1].e))
  {
  }

  lemma PushKeeps(ops: seq<StackOp>, a: EventKinds, m: Model, n: nat, e: Event, s: seq<Event>)
    requires InOrder(ops, a, m) && 0 < n <= |ops| && ops[n - 1] == Push(e)
    requires Holding(ops, n - 1, s, m)
    ensures Holding(ops, n, if m.Guard(e) then s + [e] else s, m)
  {
    var s' := if m.Guard(e) then s + [e] else s;
    OlderOnStack(ops, a, m, n, e, s);
    NotYetPopped(ops, a, m, n, e, s);
    forall f ensures f in s' <==> PushedWithin(ops, n, f) && m.Guard(f) && !PoppedWithin(ops, n, f, m) {
      OneMore(ops, n, m, f);
    }
  }

  lemma OlderOnStack(ops: seq<StackOp>, a: EventKinds, m: Model, n: nat, e: Event, s: seq<Event>)
    requires InOrder(ops, a, m) && 0 < n <= |ops| && ops[n - 1] == Push(e) && Holding(ops, n - 1, s, m)
    ensures forall f :: f in s ==> m.Time(f) < m.Time(e)
  {
    forall f | f in s ensures m.Time(f) < m.Time(e) {
      assert PushedWithin(ops, n - 1, f);
      var p :| 0 <= p < n - 1 && ops[p] == Push(f);
    }
  }

  lemma NotYetPopped(ops: seq<StackOp>, a: EventKinds, m: Model, n: nat, e: Event, s: seq<Event>)
    requires InOrder(ops, a, m) && 0 < n <= |ops| && ops[n - 1] == Push(e) && Holding(ops, n - 1, s, m)
    ensures !PoppedWithin(ops, n - 1, e, m)
  {
    forall q | 0 <= q < n - 1 && PopsAt(ops, q, m) ensures !m.Flows(PopFrom, e, ops[q].e) {
      assert HasEarlierPush(ops, q, m);
      var p :| 0 <= p < q && ops[p].Push? && m.Flows(PopFrom, ops[p].e, ops[q].e);
      assert m.Time(ops[p].e) < m.Time(e);
    }
  }

  lemma PopKeeps(ops: seq<StackOp>, a: EventKinds, m: Model, n: nat, pop: Event, s: seq<Event>)
    requires InOrder(ops, a, m) && 0 < n <= |ops| && ops[n - 1] == Pop(pop)
    requires Holding(ops, n - 1, s, m) && m.Guard(pop) && Takes(s, pop, m)
    ensures Holding(ops, n, s[..|s| - 1], m)
  {
    var top := s[|s| - 1];
    assert top in s;
    assert HasEarlierPush(ops, n - 1, m);
    forall f ensures f in s[..|s| - 1] <==> PushedWithin(ops, n, f) && m.Guard(f) && !PoppedWithin(ops, n, f, m) {
      OneMore(ops, n, m, f);
      assert f in s <==> f in s[..|s| - 1] || f == top;
      if PushedWithin(ops, n - 1, f) {
        SamePush(ops, a, m, n - 1, f, top);
      }
    }
  }

  /** A disabled pop leaves the stack as it is. */
  lemma DisabledKeeps(ops: seq<StackOp>, m: Model, n: nat, s: seq<Event>)
    requires 0 < n <= |ops| && ops[n - 1].Pop? && !m.Guard(ops[n - 1].e) && Holding(ops, n - 1, s, m)
    ensures Holding(ops, n, s, m)
  {
    forall f ensures f in s <==> PushedWithin(ops, n, f) && m.Guard(f) && !PoppedWithin(ops, n, f, m) {
      OneMore(ops, n, m, f);
    }
  }

  lemma SamePush(ops: seq<StackOp>, a: EventKinds, m: Model, n: nat, e: Event, f: Event)
    requires InOrder(ops, a, m) && n <= |ops| && PushedWithin(ops, n, e) && PushedWithin(ops, n, f)
    ensures e.id == f.id ==> e == f
  {
    var i :| 0 <= i < n && ops[i] == Push(e);
    var j :| 0 <= j < n && ops[j] == Push(f);
    if e.id == f.id {
      SameId(ops, a, m, i, j);
    }
  }

  ghost predicate StackEncoded(a: EventKinds, m: Model)
  {
    AllPopsFrom(a, m) && PopsInjective(a.pops, m) && AllLifo(a, m)
  }

  /** No pop is disabled. */
  ghost predicate PopsEnabled(a: EventKinds, data: Data)
  {
    forall pop :: pop in a.pops ==> pop.guard(data)
  }

  /** The encoding wants a source for every pop, and the source of a pop enables it. */
  lemma EncodedEnabled(a: EventKinds, m: Model)
    requires AllPopsFrom(a, m)
    ensures PopsEnabled(a, m.data)
  {
    forall pop | pop in a.pops ensures m.Guard(pop) {
      assert PopsFrom(pop, a.pushes, m);
      var w :| w in a.pushes && m.Flows(PopFrom, w, pop);
    }
  }

  /** One step of the simulation: an encoded pop finds its source on top. */
  lemma PopFindsSource(ops: seq<StackOp>, a: EventKinds, m: Model, n: nat, s: seq<Event>)
    requires InOrder(ops, a, m) && StackEncoded(a, m)
    requires n < |ops| && ops[n].Pop? && Holding(ops, n, s, m)
    ensures Takes(s, ops[n].e, m)
  {
    var w := SourceOnStack(ops, a, m, n, s);
    var top := s[|s| - 1];
    assert top in s;
    if top != w {
      assert m.Time(w) < m.Time(top);
      LaterPushPopped(ops, a, m, n, w, top);
    }
  }

  lemma SourceOnStack(ops: seq<StackOp>, a: EventKinds, m: Model, n: nat, s: seq<Event>) returns (w: Event)
    requires InOrder(ops, a, m) && StackEncoded(a, m)
    requires n < |ops| && ops[n].Pop? && Holding(ops, n, s, m)
    ensures w in s && w in a.pushes && m.Flows(PopFrom, w, ops[n].e)
    ensures m.Guard(ops[n].e) && m.Value(w) == m.Value(ops[n].e)
  {
    var pop := ops[n].e;
    assert ops[n] in ops && ops[n] == Pop(pop);
    assert PopsFrom(pop, a.pushes, m);
    w :| w in a.pushes && m.Flows(PopFrom, w, pop);
    assert m.Time(w) < m.Time(pop);
    PushedBefore(ops, a, m, n, w);
    NotPoppedBefore(ops, a, m, n, w);
  }

  lemma PushedBefore(ops: seq<StackOp>, a: EventKinds, m: Model, n: nat, w: Event)
    requires InOrder(ops, a, m) && n < |ops| && w in a.pushes && m.Time(w) < m.Time(ops[n].e)
    ensures PushedWithin(ops, n, w)
  {
    assert Push(w) in ops;
    var p :| 0 <= p < |ops| && ops[p] == Push(w);
    assert p < n;
  }

  lemma NotPoppedBefore(ops: seq<StackOp>, a: EventKinds, m: Model, n: nat, w: Event)
    requires InOrder(ops, a, m) && PopsInjective(a.pops, m) && n < |ops| && ops[n].Pop?
    requires m.Flows(PopFrom, w, ops[n].e)
    ensures !PoppedWithin(ops, n, w, m)
  {
    forall q | 0 <= q < n && PopsAt(ops, q, m) ensures !m.Flows(PopFrom, w, ops[q].e) {
      DistinctSources(ops, a, m, q, n);
    }
  }

  /** An enabled push between a push and its pop has been popped before. */
  lemma LaterPushPopped(ops: seq<StackOp>, a: EventKinds, m: Model, n: nat, w: Event, top: Event)
    requires InOrder(ops, a, m) && StackEncoded(a, m)
    requires n < |ops| && ops[n].Pop? && w in a.pushes && m.Flows(PopFrom, w, ops[n].e)
    requires PushedWithin(ops, n, top) && m.Guard(top) && m.Time(w) < m.Time(top)
    ensures PoppedWithin(ops, n, top, m)
  {
    var p' :| 0 <= p' < n && ops[p'] == Push(top);
    assert ops[p'] in ops && ops[n] in ops && ops[n] == Pop(ops[n].e);
    assert LifoOrder(w, top, ops[n].e, a.pops, m);
    var pop' :| pop' in a.pops && m.Flows(PopFrom, top, pop');
    EncodedEnabled(a, m);
    PopComesBefore(ops, a, m, n, top, pop');
  }

  lemma PopComesBefore(ops: seq<StackOp>, a: EventKinds, m: Model, n: nat, top: Event, pop: Event)
    requires InOrder(ops, a, m) && n < |ops| && pop in a.pops && m.Guard(pop) && m.Flows(PopFrom, top, pop)
    requires m.Time(pop) < m.Time(ops[n].e)
    ensures PoppedWithin(ops, n, top, m)
  {
    assert Pop(pop) in ops;
    var q :| 0 <= q < |ops| && ops[q] == Pop(pop);
    assert q < n;
  }

  lemma DistinctSources(ops: seq<StackOp>, a: EventKinds, m: Model, q: nat, n: nat)
    requires InOrder(ops, a, m) && PopsInjective(a.pops, m)
    requires q < n < |ops| && ops[q].Pop? && ops[n].Pop?
    ensures m.source(PopFrom, ops[q].e.id) != m.source(PopFrom, ops[n].e.id)
  {
    assert ops[q] in ops && ops[q] == Pop(ops[q].e) && ops[n] in ops && ops[n] == Pop(ops[n].e);
    var i :| 0 <= i < |a.pops| && a.pops[i] == ops[q].e;
    var j :| 0 <= j < |a.pops| && a.pops[j] == ops[n].e;
    assert m.Time(ops[q].e) < m.Time(ops[n].e);
  }

  lemma {:induction false} EncodingRuns(ops: seq<StackOp>, a: EventKinds, m: Model, n: nat)
    requires InOrder(ops, a, m) && StackEncoded(a, m) && n <= |ops|
    ensures After(ops[..n], m).Stack?
  {
    if n > 0 {
      assert ops[..n][..n - 1] == ops[..n - 1];
      EncodingRuns(ops, a, m, n - 1);
      RunHolds(ops, a, m, n - 1);
      if ops[n - 1].Pop? {
        PopFindsSource(ops, a, m, n - 1, After(ops[..n - 1], m).items);
      }
    }
  }

  /** What a successful run says about one pop. */
  lemma PopInRun(ops: seq<StackOp>, a: EventKinds, m: Model, n: nat) returns (s: seq<Event>)
    requires InOrder(ops, a, m) && After(ops, m).Stack? && n < |ops| && PopsAt(ops, n, m)
    ensures Holding(ops, n, s, m) && Takes(s, ops[n].e, m)
  {
    PrefixRuns(ops, m, n + 1);
    assert ops[..n + 1][..n] == ops[..n];
    RunHolds(ops, a, m, n);
    s := After(ops[..n], m).items;
  }

  lemma {:induction false} PrefixRuns(ops: seq<StackOp>, m: Model, n: nat)
    requires n <= |ops| && After(ops, m).Stack?
    ensures After(ops[..n], m).Stack?
  {
    if n == |ops| {
      assert ops[..n] == ops;
    } else {
      assert ops[..|ops| - 1][..n] == ops[..n];
      PrefixRuns(ops[..|ops| - 1], m, n);
    }
  }

  lemma RunPopsFrom(ops: seq<StackOp>, a: EventKinds, m: Model, n: nat)
    requires InOrder(ops, a, m) && After(ops, m).Stack? && n < |ops| && PopsAt(ops, n, m)
    ensures PopsFrom(ops[n].e, a.pushes, m)
  {
    var s := PopInRun(ops, a, m, n);
    var pop, top := ops[n].e, s[|s| - 1];
    assert top in s;
    var p :| 0 <= p < n && ops[p] == Push(top);
    assert ops[p] in ops;
    forall push | push in a.pushes && m.Flows(PopFrom, push, pop) ensures push == top {
      assert Push(push) in ops;
      var i :| 0 <= i < |ops| && ops[i] == Push(push);
      SameId(ops, a, m, i, p);
    }
  }

  lemma RunInjective(ops: seq<StackOp>, a: EventKinds, m: Model, q: nat, n: nat)
    requires InOrder(ops, a, m) && After(ops, m).Stack?
    requires q < n < |ops| && PopsAt(ops, q, m) && PopsAt(ops, n, m)
    ensures m.source(PopFrom, ops[q].e.id) != m.source(PopFrom, ops[n].e.id)
  {
    var s := PopInRun(ops, a, m, n);
    assert s[|s| - 1] in s;
    assert !PoppedWithin(ops, n, s[|s| - 1], m);
  }

  /** In a run, a push that comes after the popped one is gone by the time of the pop. */
  lemma RunLifo(ops: seq<StackOp>, a: EventKinds, m: Model, push: Event, push': Event, n: nat)
    requires InOrder(ops, a, m) && After(ops, m).Stack? && PopsEnabled(a, m.data)
    requires n < |ops| && PopsAt(ops, n, m) && push in a.pushes && push' in a.pushes
    ensures LifoOrder(push, push', ops[n].e, a.pops, m)
  {
    var pop := ops[n].e;
    if m.Flows(PopFrom, push, pop) && m.Time(push) < m.Time(push') < m.Time(pop) {
      if m.Guard(push') {
        RunLaterPopped(ops, a, m, push, push', n);
        var q :| 0 <= q < n && PopsAt(ops, q, m) && m.Flows(PopFrom, push', ops[q].e);
        assert ops[q] in ops && ops[q] == Pop(ops[q].e);
      }
      forall pop' | pop' in a.pops && m.Flows(PopFrom, push', pop') ensures m.Time(pop') < m.Time(pop) {
        assert Pop(pop') in ops;
        var q :| 0 <= q < |ops| && ops[q] == Pop(pop');
        RunPopsFrom(ops, a, m, q);
        RunLaterPopped(ops, a, m, push, push', n);
        var q' :| 0 <= q' < n && PopsAt(ops, q', m) && m.Flows(PopFrom, push', ops[q'].e);
        if q != q' {
          RunInjective(ops, a, m, if q < q' then q else q', if q < q' then q' else q);
        }
      }
    }
  }

  lemma RunLaterPopped(ops: seq<StackOp>, a: EventKinds, m: Model, push: Event, push': Event, n: nat)
    requires InOrder(ops, a, m) && After(ops, m).Stack?
    requires n < |ops| && PopsAt(ops, n, m) && push in a.pushes && push' in a.pushes
    requires m.Flows(PopFrom, push, ops[n].e) && m.Time(push) < m.Time(push') < m.Time(ops[n].e) && m.Guard(push')
    ensures PoppedWithin(ops, n, push', m)
  {
    var s := PopInRun(ops, a, m, n);
    PushedBefore(ops, a, m, n, push);
    PushedBefore(ops, a, m, n, push');
    TopIsLatest(ops, a, m, push, push', n, s);
  }

  /** A push later than the one popped is no longer on the stack. */
  lemma TopIsLatest(ops: seq<StackOp>, a: EventKinds, m: Model, push: Event, push': Event, n: nat, s: seq<Event>)
    requires InOrder(ops, a, m) && n < |ops| && ops[n].Pop?
    requires Holding(ops, n, s, m) && Takes(s, ops[n].e, m)
    requires PushedWithin(ops, n, push) && PushedWithin(ops, n, push') && m.Guard(push')
    requires m.Flows(PopFrom, push, ops[n].e) && m.Time(push) < m.Time(push')
    ensures PoppedWithin(ops, n, push', m)
  {
    var top := s[|s| - 1];
    assert top in s;
    SamePush(ops, a, m, n, top, push);
    assert push' !in s;
  }

  lemma RunPopsInjective(ops: seq<StackOp>, a: EventKinds, m: Model)
    requires InOrder(ops, a, m) && After(ops, m).Stack? && PopsEnabled(a, m.data)
    requires Serialized(a.pops, m)
    ensures PopsInjective(a.pops, m)
  {
    forall i, j | 0 <= i < j < |a.pops| ensures m.source(PopFrom, a.pops[i].id) != m.source(PopFrom, a.pops[j].id) {
      assert Pop(a.pops[i]) in ops && Pop(a.pops[j]) in ops;
      var p :| 0 <= p < |ops| && ops[p] == Pop(a.pops[i]);
      var q :| 0 <= q < |ops| && ops[q] == Pop(a.pops[j]);
      assert p != q;
      RunInjective(ops, a, m, if p < q then p else q, if p < q then q else p);
    }
  }

  /** The operations of stack `a` in time order. */
  ghost function TimeOrdered(a: EventKinds, m: Model): (ops: seq<StackOp>)
    requires Serialized(a.pushes + a.pops, m)
    ensures InOrder(ops, a, m)
  {
    DifferentOps(a, m);
    var ops := Sort(Ops(a), TimeOfOp(m.time));
    StrictlyOrdered(a, m, ops);
    ops
  }

  lemma DifferentOps(a: EventKinds, m: Model)
    requires Serialized(a.pushes + a.pops, m)
    ensures forall i, j :: 0 <= i < j < |Ops(a)| ==> m.Time(Ops(a)[i].e) != m.Time(Ops(a)[j].e)
  {
    forall i | 0 <= i < |Ops(a)| ensures Ops(a)[i].e == (a.pushes + a.pops)[i] {}
  }

  lemma StrictlyOrdered(a: EventKinds, m: Model, ops: seq<StackOp>)
    requires forall i, j :: 0 <= i < j < |Ops(a)| ==> m.Time(Ops(a)[i].e) != m.Time(Ops(a)[j].e)
    requires SortedBy(ops, TimeOfOp(m.time)) && NoDuplicates(ops) && forall op :: op in ops <==> op in Ops(a)
    ensures InOrder(ops, a, m)
  {
    forall i, j | 0 <= i < j < |ops| ensures m.Time(ops[i].e) < m.Time(ops[j].e) {
      assert ops[i] in ops && ops[j] in ops && ops[i] != ops[j];
      var p :| 0 <= p < |Ops(a)| && Ops(a)[p] == ops[i];
      var q :| 0 <= q < |Ops(a)| && Ops(a)[q] == ops[j];
      assert TimeOfOp(m.time)(ops[i]) <= TimeOfOp(m.time)(ops[j]);
    }
  }

  // ---- Runs without data flow -----------------------------------------------------------

  /** The same machine when nothing is said about flow: an enabled pop finds its value on top. */
  ghost function Plain(ops: seq<StackOp>, data: Data): Outcome
  {
    if ops == [] then Stack([])
    else
      match Plain(ops[..|ops| - 1], data)
      case Stuck => Stuck
      case Stack(s) =>
        match ops[|ops| - 1]
        case Push(e) => if e.guard(data) then Stack(s + [e]) else Stack(s)
        case Pop(e) =>
          if !e.guard(data) then Stack(s) else if FindsValue(s, e, data) then Stack(s[..|s| - 1]) else Stuck
  }

  ghost predicate FindsValue(s: seq<Event>, pop: Event, data: Data)
  {
    s != [] && s[|s| - 1].term(data) == pop.term(data)
  }

  /** What is on top before operation `k`. */
  ghost function TopAt(ops: seq<StackOp>, data: Data, k: nat): int
    requires k <= |ops|
  {
    match Plain(ops[..k], data)
    case Stuck => -1
    case Stack(s) => if s == [] then -1 else s[|s| - 1].id
  }

  ghost predicate PopAt(ops: seq<StackOp>, k: int, id: EventId)
  {
    0 <= k < |ops| && ops[k].Pop? && ops[k].e.id == id
  }

  /** Each pop takes what is on top. */
  ghost function TopSources(ops: seq<StackOp>, data: Data): EventId -> int
  {
    (id: EventId) => if exists k :: PopAt(ops, k, id) then (var k :| PopAt(ops, k, id); TopAt(ops, data, k)) else -1
  }

  lemma {:induction false} FlowForgotten(ops: seq<StackOp>, m: Model)
    ensures After(ops, m).Stack? ==> Plain(ops, m.data) == After(ops, m)
  {
    if ops != [] {
      FlowForgotten(ops[..|ops| - 1], m);
    }
  }

  lemma {:induction false} PlainPrefix(ops: seq<StackOp>, data: Data, n: nat)
    requires n <= |ops| && Plain(ops, data).Stack?
    ensures Plain(ops[..n], data).Stack?
  {
    if n == |ops| {
      assert ops[..n] == ops;
    } else {
      assert ops[..|ops| - 1][..n] == ops[..n];
      PlainPrefix(ops[..|ops| - 1], data, n);
    }
  }

  /** With the tops as sources the machine with data flow does the same. */
  lemma {:induction false} FlowChosen(ops: seq<StackOp>, m: Model, n: nat)
    requires n <= |ops| && Plain(ops, m.data).Stack?
    requires forall k :: 0 <= k < |ops| && ops[k].Pop? ==> m.source(PopFrom, ops[k].e.id) == TopAt(ops, m.data, k)
    ensures After(ops[..n], m) == Plain(ops[..n], m.data)
  {
    if n > 0 {
      assert ops[..n][..n - 1] == ops[..n - 1];
      FlowChosen(ops, m, n - 1);
      PlainPrefix(ops, m.data, n);
    }
  }

  /** Sources can be chosen for a pop-by-pop run exactly as it finds them. */
  lemma TopsFlow(ops: seq<StackOp>, a: EventKinds, m: Model)
    requires InOrder(ops, a, m) && Plain(ops, m.data).Stack?
    requires forall pop :: pop in a.pops ==> m.source(PopFrom, pop.id) == TopSources(ops, m.data)(pop.id)
    ensures After(ops, m).Stack?
  {
    forall k | 0 <= k < |ops| && ops[k].Pop? ensures m.source(PopFrom, ops[k].e.id) == TopAt(ops, m.data, k) {
      assert ops[k] in ops && ops[k] == Pop(ops[k].e) && PopAt(ops, k, ops[k].e.id);
      forall j | PopAt(ops, j, ops[k].e.id) ensures j == k {
        SameId(ops, a, m, j, k);
      }
    }
    FlowChosen(ops, m, |ops|);
    assert ops[..|ops|] == ops;
  }

  /** Main result: when all operations on a stack happen at different times, pop-from,
      injectivity and LIFO order hold exactly if no pop is disabled and the operations, run
      in time order on a real stack, let every pop return its source from the top. */
  lemma StackEncodingExact(a: EventKinds, m: Model)
    requires Serialized(a.pushes + a.pops, m)
    ensures StackEncoded(a, m) <==> PopsEnabled(a, m.data) && After(TimeOrdered(a, m), m).Stack?
  {
    var ops := TimeOrdered(a, m);
    assert ops[..|ops|] == ops;
    if StackEncoded(a, m) {
      EncodingRuns(ops, a, m, |ops|);
      EncodedEnabled(a, m);
    }
    if PopsEnabled(a, m.data) && After(ops, m).Stack? {
      RunIsEncoded(ops, a, m);
    }
  }

  lemma RunIsEncoded(ops: seq<StackOp>, a: EventKinds, m: Model)
    requires InOrder(ops, a, m) && After(ops, m).Stack? && PopsEnabled(a, m.data)
    requires Serialized(a.pushes + a.pops, m)
    ensures StackEncoded(a, m)
  {
    forall pop | pop in a.pops ensures exists n :: 0 <= n < |ops| && ops[n] == Pop(pop) {
      assert Pop(pop) in ops;
    }
    forall pop | pop in a.pops ensures PopsFrom(pop, a.pushes, m) {
      var n :| 0 <= n < |ops| && ops[n] == Pop(pop);
      RunPopsFrom(ops, a, m, n);
    }
    forall push, push', pop | push in a.pushes && push' in a.pushes && pop in a.pops
      ensures LifoOrder(push, push', pop, a.pops, m)
    {
      var n :| 0 <= n < |ops| && ops[n] == Pop(pop);
      RunLifo(ops, a, m, push, push', n);
    }
    assert Serialized(a.pops, m) by {
      forall i | 0 <= i < |a.pops| ensures (a.pushes + a.pops)[|a.pushes| + i] == a.pops[i] {}
    }
    RunPopsInjective(ops, a, m);
  }
}
