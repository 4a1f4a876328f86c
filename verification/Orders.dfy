/** Finite relations and their transitive closures. */
module Orders {

  type Edges = seq<(nat, nat)>

  /** `f` is reached from `e` by `n` edges. */
  ghost predicate Steps(edges: Edges, n: nat, e: nat, f: nat)
    decreases n
  {
    if n == 0 then false
    else if n == 1 then (e, f) in edges
    else exists c: nat :: (e, c) in edges && Steps(edges, n - 1, c, f)
  }

  /** The transitive closure. */
  ghost predicate Closure(edges: Edges, e: nat, f: nat)
  {
    exists n: nat :: Steps(edges, n, e, f)
  }

  lemma EdgeInClosure(edges: Edges, e: nat, f: nat)
    requires (e, f) in edges
    ensures Closure(edges, e, f)
  {
    assert Steps(edges, 1, e, f);
  }

  lemma {:induction false} StepsCompose(edges: Edges, m: nat, n: nat, e: nat, c: nat, f: nat)
    requires Steps(edges, m, e, c) && Steps(edges, n, c, f)
    ensures Steps(edges, m + n, e, f)
    decreases m
  {
    if m > 1 {
      var d: nat :| (e, d) in edges && Steps(edges, m - 1, d, c);
      StepsCompose(edges, m - 1, n, d, c, f);
    }
  }

  lemma ClosureTransitive(edges: Edges, e: nat, c: nat, f: nat)
    requires Closure(edges, e, c) && Closure(edges, c, f)
    ensures Closure(edges, e, f)
  {
    var m: nat :| Steps(edges, m, e, c);
    var n: nat :| Steps(edges, n, c, f);
    StepsCompose(edges, m, n, e, c, f);
  }

  ghost predicate Transitive(r: (nat, nat) -> bool)
  {
    forall e, c, f :: r(e, c) && r(c, f) ==> r(e, f)
  }

  /** The closure is the least transitive relation with these edges. */
  lemma {:induction false} ClosureIsLeast(edges: Edges, r: (nat, nat) -> bool, e: nat, f: nat)
    requires forall p :: p in edges ==> r(p.0, p.1)
    requires Transitive(r) && Closure(edges, e, f)
    ensures r(e, f)
  {
    var n: nat :| Steps(edges, n, e, f);
    StepsWithin(edges, r, n, e, f);
  }

  lemma {:induction false} StepsWithin(edges: Edges, r: (nat, nat) -> bool, n: nat, e: nat, f: nat)
    requires forall p :: p in edges ==> r(p.0, p.1)
    requires Transitive(r) && Steps(edges, n, e, f)
    ensures r(e, f)
    decreases n
  {
    if n > 1 {
      var c: nat :| (e, c) in edges && Steps(edges, n - 1, c, f);
      StepsWithin(edges, r, n - 1, c, f);
      assert r((e, c).0, (e, c).1);
    } else {
      assert r((e, f).0, (e, f).1);
    }
  }

  lemma ClosureMonotone(edges: Edges, edges': Edges, e: nat, f: nat)
    requires forall p :: p in edges ==> p in edges'
    requires Closure(edges, e, f)
    ensures Closure(edges', e, f)
  {
    var n: nat :| Steps(edges, n, e, f);
    StepsMonotone(edges, edges', n, e, f);
  }

  lemma {:induction false} StepsMonotone(edges: Edges, edges': Edges, n: nat, e: nat, f: nat)
    requires forall p :: p in edges ==> p in edges'
    requires Steps(edges, n, e, f)
    ensures Steps(edges', n, e, f)
    decreases n
  {
    if n > 1 {
      var c: nat :| (e, c) in edges && Steps(edges, n - 1, c, f);
      StepsMonotone(edges, edges', n - 1, c, f);
    }
  }

  /** Edges with all events renumbered from `offset` on. */
  function Shift(edges: Edges, offset: nat): (r: Edges)
    ensures |r| == |edges|
    ensures forall i :: 0 <= i < |r| ==> r[i] == (offset + edges[i].0, offset + edges[i].1)
  {
    seq(|edges|, i requires 0 <= i < |edges| => (offset + edges[i].0, offset + edges[i].1))
  }

  lemma ShiftMembers(edges: Edges, offset: nat, p: (nat, nat))
    ensures p in Shift(edges, offset) <==>
      p.0 >= offset && p.1 >= offset && (p.0 - offset, p.1 - offset) in edges
  {
    if p.0 >= offset && p.1 >= offset && (p.0 - offset, p.1 - offset) in edges {
      var i :| 0 <= i < |edges| && edges[i] == (p.0 - offset, p.1 - offset);
      assert Shift(edges, offset)[i] == p;
    }
  }

  lemma ClosureShift(edges: Edges, offset: nat, e: nat, f: nat)
    requires Closure(edges, e, f)
    ensures Closure(Shift(edges, offset), offset + e, offset + f)
  {
    var n: nat :| Steps(edges, n, e, f);
    StepsShift(edges, offset, n, e, f);
  }

  lemma {:induction false} StepsShift(edges: Edges, offset: nat, n: nat, e: nat, f: nat)
    requires Steps(edges, n, e, f)
    ensures Steps(Shift(edges, offset), n, offset + e, offset + f)
    decreases n
  {
    if n > 1 {
      var c: nat :| (e, c) in edges && Steps(edges, n - 1, c, f);
      StepsShift(edges, offset, n - 1, c, f);
      ShiftMembers(edges, offset, (offset + e, offset + c));
    } else {
      ShiftMembers(edges, offset, (offset + e, offset + f));
    }
  }

  /** The first and the last edge of a path. */
  lemma {:induction false} FirstEdge(edges: Edges, e: nat, f: nat) returns (c: nat)
    requires Closure(edges, e, f)
    ensures (e, c) in edges && (c == f || Closure(edges, c, f))
  {
    var n: nat :| Steps(edges, n, e, f);
    if n == 1 {
      c := f;
    } else {
      c :| (e, c) in edges && Steps(edges, n - 1, c, f);
    }
  }

  lemma LastEdge(edges: Edges, e: nat, f: nat) returns (c: nat)
    requires Closure(edges, e, f)
    ensures (c, f) in edges && (c == e || Closure(edges, e, c))
  {
    var n: nat :| Steps(edges, n, e, f);
    c := LastStep(edges, n, e, f);
  }

  lemma {:induction false} LastStep(edges: Edges, n: nat, e: nat, f: nat) returns (c: nat)
    requires Steps(edges, n, e, f)
    ensures (c, f) in edges && (c == e || Closure(edges, e, c))
    decreases n
  {
    if n == 1 {
      c := e;
    } else {
      var d: nat :| (e, d) in edges && Steps(edges, n - 1, d, f);
      c := LastStep(edges, n - 1, d, f);
      EdgeInClosure(edges, e, d);
      if c != d {
        ClosureTransitive(edges, e, d, c);
      }
    }
  }
}
