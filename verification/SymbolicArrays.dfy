/** Arrays of values under construction: a vector of elements while all offsets are
    literals, a chain of stores from the first symbolic offset on. */
module SymbolicArrays {
  import opened Arithmetic
  import opened Words
  import opened ConstantPropagation

  datatype Option<T> = None | Some(value: T)

  // ---- States and histories --------------------------------------------------------------

  /** The array, and which symbol was made up for which element. */
  datatype State = State(term: Option<ArrayTerm>, vector: seq<Internal>, origin: map<nat, nat>)

  /** A completed write, and a completed read with the number of writes before it. */
  datatype Written = Written(offset: Term, value: Term)
  datatype Observed = Observed(after: nat, offset: Term, value: Internal)

  function Root(a: ArrayTerm): nat
  {
    match a
    case ArraySymbol(id) => id
    case Store(b, _, _) => Root(b)
  }

  /** The unknown initial value of an element; immaterial as long as nobody looked. */
  function Initial(s: State, i: nat, x: Assignment, w: nat): nat
  {
    if i in s.origin then x.scalars(s.origin[i]) % Pow2(w)
    else if s.term.Some? then x.arrays(Root(s.term.value), i) % Pow2(w)
    else 0
  }

  /** The current value of an element. */
  function Element(s: State, i: nat, x: Assignment, w: nat): nat
  {
    match s.term
    case Some(a) => EvalAt(a, i, x, w)
    case None => if i < |s.vector| then Value(s.vector[i], x, w) else Initial(s, i, x, w)
  }

  /** The element of an ordinary array after the writes, if it was `base` before. */
  function AfterWrites(stores: seq<Written>, i: nat, base: nat, x: Assignment, w: nat): nat
  {
    if stores == [] then base
    else
      var last := stores[|stores| - 1];
      if Eval(last.offset, x, w) == i then Eval(last.value, x, w)
      else AfterWrites(stores[..|stores| - 1], i, base, x, w)
  }

  /** Only elements of the vector have been touched so far. */
  ghost predicate Within(t: Term, n: nat, w: nat)
  {
    forall x: Assignment :: Eval(t, x, w) < n
  }

  ghost predicate Shaped(s: State, newest: nat)
  {
    && (s.term.Some? ==> s.vector == [])
    && (s.term.None? ==> forall i: nat :: i in s.origin <==> i < |s.vector|)
    && (forall i, j :: i in s.origin && j in s.origin && i != j ==> s.origin[i] != s.origin[j])
    && (forall i :: i in s.origin ==> s.origin[i] <= newest)
    && (s.term.Some? ==> Root(s.term.value) <= newest)
  }

  ghost predicate Tame(s: State, stores: seq<Written>, loads: seq<Observed>, w: nat)
  {
    s.term.None? ==>
      && (forall k :: 0 <= k < |stores| ==> Within(stores[k].offset, |s.vector|, w))
      && (forall k :: 0 <= k < |loads| ==> Within(loads[k].offset, |s.vector|, w))
  }

  /** Every element is what an ordinary array would hold after the writes. */
  ghost predicate Mirrors(s: State, stores: seq<Written>, w: nat)
  {
    forall x: Assignment, i: nat :: Element(s, i, x, w) == AfterWrites(stores, i, Initial(s, i, x, w), x, w)
  }

  /** A read returned what an ordinary array would have returned. */
  ghost predicate Explained(s: State, stores: seq<Written>, r: Observed, x: Assignment, w: nat)
  {
    && r.after <= |stores|
    && var i := Eval(r.offset, x, w);
      Value(r.value, x, w) == AfterWrites(stores[..r.after], i, Initial(s, i, x, w), x, w)
  }

  ghost predicate AllExplained(s: State, stores: seq<Written>, loads: seq<Observed>, w: nat)
  {
    forall k, x: Assignment :: 0 <= k < |loads| ==> Explained(s, stores, loads[k], x, w)
  }

  ghost predicate Consistent(s: State, stores: seq<Written>, loads: seq<Observed>, newest: nat, w: nat)
  {
    Shaped(s, newest) && Tame(s, stores, loads, w) && Mirrors(s, stores, w) && AllExplained(s, stores, loads, w)
  }

  // ---- New symbols --------------------------------------------------------------------------

  /** Going from `s` to `t`, nothing that was made up is forgotten, and what is made up has
      numbers above `before` and at most `after`: no other array and no input has them. */
  ghost predicate Introduces(s: State, t: State, before: nat, after: nat)
  {
    && before <= after
    && (forall i :: i in s.origin ==> i in t.origin && t.origin[i] == s.origin[i])
    && (forall i :: i in t.origin && i !in s.origin ==> before < t.origin[i] <= after)
    && (s.term.Some? ==> t.term.Some? && Root(t.term.value) == Root(s.term.value))
    && (s.term.None? && t.term.Some? ==> before < Root(t.term.value) <= after)
  }

  /** Two arrays have no symbol in common. */
  ghost predicate Apart(s: State, t: State)
  {
    && (forall i, j :: i in s.origin && j in t.origin ==> s.origin[i] != t.origin[j])
    && (s.term.Some? && t.term.Some? ==> Root(s.term.value) != Root(t.term.value))
  }

  /** They stay apart whatever one of them introduces. */
  lemma StayApart(s: State, s': State, t: State, before: nat, after: nat)
    requires Apart(s, t) && Shaped(t, before) && Introduces(s, s', before, after)
    ensures Apart(s', t) && Apart(t, s')
  {
  }

  lemma NewerConsistent(s: State, stores: seq<Written>, loads: seq<Observed>, newest: nat, newer: nat, w: nat)
    requires Consistent(s, stores, loads, newest, w) && newest <= newer
    ensures Consistent(s, stores, loads, newer, w)
  {
  }

  // ---- Steps --------------------------------------------------------------------------------

  lemma {:induction false} Untouched(stores: seq<Written>, n: nat, i: nat, base: nat, x: Assignment, w: nat)
    requires forall k :: 0 <= k < |stores| ==> Within(stores[k].offset, n, w)
    requires n <= i
    ensures AfterWrites(stores, i, base, x, w) == base
  {
    if stores != [] {
      assert Within(stores[|stores| - 1].offset, n, w);
      Untouched(stores[..|stores| - 1], n, i, base, x, w);
    }
  }

  /** One more element with a symbol of its own. */
  function Grown(s: State, id: nat): State
  {
    s.(vector := s.vector + [Plain(Symbol(id, Word))], origin := s.origin[|s.vector| := id])
  }

  lemma GrownShaped(s: State, newest: nat, id: nat)
    requires Shaped(s, newest) && s.term.None? && newest < id
    ensures Shaped(Grown(s, id), id)
  {
  }

  lemma GrownInitial(s: State, id: nat, i: nat, x: Assignment, w: nat)
    requires s.term.None? && i != |s.vector|
    ensures Initial(Grown(s, id), i, x, w) == Initial(s, i, x, w)
  {
  }

  lemma GrownMirrors(s: State, stores: seq<Written>, loads: seq<Observed>, newest: nat, id: nat, w: nat)
    requires Consistent(s, stores, loads, newest, w) && s.term.None?
    ensures Mirrors(Grown(s, id), stores, w)
  {
    var t, n := Grown(s, id), |s.vector|;
    forall x: Assignment, i: nat ensures Element(t, i, x, w) == AfterWrites(stores, i, Initial(t, i, x, w), x, w) {
      if i == n {
        Untouched(stores, n, i, Initial(t, i, x, w), x, w);
        assert t.vector[i] == Plain(Symbol(id, Word));
      } else {
        GrownInitial(s, id, i, x, w);
        assert Element(s, i, x, w) == AfterWrites(stores, i, Initial(s, i, x, w), x, w);
      }
    }
  }

  /** Reads that stay explained when initial values they depend on stay. */
  lemma StillExplained(s: State, t: State, stores: seq<Written>, loads: seq<Observed>, n: nat, w: nat)
    requires AllExplained(s, stores, loads, w)
    requires forall k :: 0 <= k < |loads| ==> Within(loads[k].offset, n, w)
    requires forall i: nat, x: Assignment :: i < n ==> Initial(t, i, x, w) == Initial(s, i, x, w)
    ensures AllExplained(t, stores, loads, w)
  {
    forall k, x: Assignment | 0 <= k < |loads| ensures Explained(t, stores, loads[k], x, w) {
      assert Explained(s, stores, loads[k], x, w) && Within(loads[k].offset, n, w);
    }
  }

  lemma WiderWithin(stores: seq<Written>, loads: seq<Observed>, s: State, t: State, w: nat)
    requires Tame(s, stores, loads, w) && s.term.None? && t.term.None? && |s.vector| <= |t.vector|
    ensures Tame(t, stores, loads, w)
  {
    forall k | 0 <= k < |stores| ensures Within(stores[k].offset, |t.vector|, w) {
      assert Within(stores[k].offset, |s.vector|, w);
    }
    forall k | 0 <= k < |loads| ensures Within(loads[k].offset, |t.vector|, w) {
      assert Within(loads[k].offset, |s.vector|, w);
    }
  }

  lemma GrownConsistent(s: State, stores: seq<Written>, loads: seq<Observed>, newest: nat, id: nat, w: nat)
    requires Consistent(s, stores, loads, newest, w) && s.term.None? && newest < id
    ensures Consistent(Grown(s, id), stores, loads, id, w)
  {
    GrownShaped(s, newest, id);
    GrownMirrors(s, stores, loads, newest, id, w);
    WiderWithin(stores, loads, s, Grown(s, id), w);
    StillExplained(s, Grown(s, id), stores, loads, |s.vector|, w);
  }

  /** The elements stored one by one over a symbolic array. */
  function Chain(id: nat, vector: seq<Internal>): ArrayTerm
  {
    if vector == [] then ArraySymbol(id)
    else
      var n := |vector| - 1;
      Store(Chain(id, vector[..n]), Const(n), TermOf(vector[n]))
  }

  lemma {:induction false} ChainElements(id: nat, vector: seq<Internal>, i: nat, x: Assignment, w: nat)
    ensures Root(Chain(id, vector)) == id
    ensures EvalAt(Chain(id, vector), i, x, w) ==
      if i < |vector| then Value(vector[i], x, w) else x.arrays(id, i) % Pow2(w)
  {
    if vector != [] {
      var n := |vector| - 1;
      ChainElements(id, vector[..n], i, x, w);
      assert Eval(Const(n), x, w) == n;
    }
  }

  /** From elements to stores; there is no way back. */
  function Switched(s: State, id: nat): State
  {
    s.(term := Some(Chain(id, s.vector)), vector := [])
  }

  lemma SwitchedRoot(s: State, id: nat)
    ensures Switched(s, id).term.Some? && Root(Switched(s, id).term.value) == id
  {
    ChainElements(id, s.vector, 0, Assignment((k: nat) => 0, (k: nat, i: nat) => 0), 0);
  }

  lemma SwitchedInitial(s: State, id: nat, i: nat, x: Assignment, w: nat)
    requires s.term.None? && i in s.origin
    ensures Initial(Switched(s, id), i, x, w) == Initial(s, i, x, w)
  {
  }

  lemma SwitchedMirrors(s: State, stores: seq<Written>, loads: seq<Observed>, newest: nat, id: nat, w: nat)
    requires Consistent(s, stores, loads, newest, w) && s.term.None?
    ensures Mirrors(Switched(s, id), stores, w)
  {
    var t, n := Switched(s, id), |s.vector|;
    forall x: Assignment, i: nat ensures Element(t, i, x, w) == AfterWrites(stores, i, Initial(t, i, x, w), x, w) {
      ChainElements(id, s.vector, i, x, w);
      if i < n {
        SwitchedInitial(s, id, i, x, w);
        assert Element(s, i, x, w) == AfterWrites(stores, i, Initial(s, i, x, w), x, w);
      } else {
        Untouched(stores, n, i, Initial(t, i, x, w), x, w);
      }
    }
  }

  lemma SwitchedConsistent(s: State, stores: seq<Written>, loads: seq<Observed>, newest: nat, id: nat, w: nat)
    requires Consistent(s, stores, loads, newest, w) && s.term.None? && newest <= id
    ensures Consistent(Switched(s, id), stores, loads, id, w)
  {
    SwitchedRoot(s, id);
    SwitchedMirrors(s, stores, loads, newest, id, w);
    forall i: nat, x: Assignment | i < |s.vector| ensures Initial(Switched(s, id), i, x, w) == Initial(s, i, x, w) {
      SwitchedInitial(s, id, i, x, w);
    }
    StillExplained(s, Switched(s, id), stores, loads, |s.vector|, w);
  }

  /** An element is replaced, in whatever representation. */
  ghost predicate Replaces(s: State, t: State, offset: Term, value: Term, w: nat)
  {
    && t.origin == s.origin && t.term.None? == s.term.None? && |t.vector| == |s.vector|
    && (t.term.Some? ==> Root(t.term.value) == Root(s.term.value))
    && (s.term.None? ==> Within(offset, |s.vector|, w))
    && forall x: Assignment, i: nat ::
         Element(t, i, x, w) == if Eval(offset, x, w) == i then Eval(value, x, w) else Element(s, i, x, w)
  }

  lemma ReplaceCell(s: State, i: nat, v: Internal, w: nat)
    requires s.term.None? && i < |s.vector|
    ensures Replaces(s, s.(vector := s.vector[i := v]), Const(i), TermOf(v), w)
  {
    var t := s.(vector := s.vector[i := v]);
    forall x: Assignment, j: nat
      ensures Element(t, j, x, w) == if Eval(Const(i), x, w) == j then Eval(TermOf(v), x, w) else Element(s, j, x, w)
    {
      assert Eval(Const(i), x, w) == i;
      assert Initial(t, j, x, w) == Initial(s, j, x, w);
    }
  }

  lemma ReplaceByStore(s: State, offset: Term, value: Term, w: nat)
    requires s.term.Some? && s.vector == []
    ensures Replaces(s, s.(term := Some(Store(s.term.value, offset, value))), offset, value, w)
  {
  }

  lemma WriteConsistent(s: State, t: State, stores: seq<Written>, loads: seq<Observed>, newest: nat,
                        offset: Term, value: Term, w: nat)
    requires Consistent(s, stores, loads, newest, w) && Replaces(s, t, offset, value, w)
    ensures Consistent(t, stores + [Written(offset, value)], loads, newest, w)
  {
    var stores' := stores + [Written(offset, value)];
    assert stores'[..|stores|] == stores;
    forall i: nat, x: Assignment ensures Initial(t, i, x, w) == Initial(s, i, x, w) {}
    forall x: Assignment, i: nat ensures Element(t, i, x, w) == AfterWrites(stores', i, Initial(t, i, x, w), x, w) {
      assert Element(s, i, x, w) == AfterWrites(stores, i, Initial(s, i, x, w), x, w);
    }
    forall k, x: Assignment | 0 <= k < |loads| ensures Explained(t, stores', loads[k], x, w) {
      assert Explained(s, stores, loads[k], x, w);
      assert stores'[..loads[k].after] == stores[..loads[k].after];
    }
  }

  /** The value read is the current element. */
  ghost predicate ReadsElement(s: State, offset: Term, v: Internal, w: nat)
  {
    && (s.term.None? ==> Within(offset, |s.vector|, w))
    && forall x: Assignment :: Value(v, x, w) == Element(s, Eval(offset, x, w), x, w)
  }

  lemma ReadConsistent(s: State, stores: seq<Written>, loads: seq<Observed>, newest: nat, offset: Term, v: Internal,
                       w: nat)
    requires Consistent(s, stores, loads, newest, w) && ReadsElement(s, offset, v, w)
    ensures Consistent(s, stores, loads + [Observed(|stores|, offset, v)], newest, w)
  {
    var r := Observed(|stores|, offset, v);
    forall x: Assignment ensures Explained(s, stores, r, x, w) {
      assert stores[..|stores|] == stores;
      assert Element(s, Eval(offset, x, w), x, w) ==
        AfterWrites(stores, Eval(offset, x, w), Initial(s, Eval(offset, x, w), x, w), x, w);
    }
    forall k, x: Assignment | 0 <= k < |loads| + 1 ensures Explained(s, stores, (loads + [r])[k], x, w) {
      if k < |loads| {
        assert Explained(s, stores, loads[k], x, w);
      }
    }
  }

  // ---- What histories mean --------------------------------------------------------------------

  /** All reads are those of an ordinary array with these initial contents. */
  ghost predicate BehavesLike(initial: nat -> nat, stores: seq<Written>, loads: seq<Observed>, x: Assignment, w: nat)
  {
    forall k :: 0 <= k < |loads| ==>
      && loads[k].after <= |stores|
      && var i := Eval(loads[k].offset, x, w);
        Value(loads[k].value, x, w) == AfterWrites(stores[..loads[k].after], i, initial(i), x, w)
  }

  /** Under every assignment, the observable values are those of some initial array. */
  lemma ObservationsAreOfAnArray(s: State, stores: seq<Written>, loads: seq<Observed>, newest: nat, x: Assignment,
                                 w: nat)
    requires Consistent(s, stores, loads, newest, w)
    ensures exists initial: nat -> nat :: BehavesLike(initial, stores, loads, x, w)
  {
    var initial := (i: nat) => Initial(s, i, x, w);
    forall k | 0 <= k < |loads|
      ensures loads[k].after <= |stores| && var i := Eval(loads[k].offset, x, w);
        Value(loads[k].value, x, w) == AfterWrites(stores[..loads[k].after], i, initial(i), x, w)
    {
      assert Explained(s, stores, loads[k], x, w);
    }
    assert BehavesLike(initial, stores, loads, x, w);
  }

  /** The assignment that gives the made-up symbols the values of `initial`. */
  ghost function Realized(s: State, initial: nat -> nat, x: Assignment): Assignment
  {
    Assignment((id: nat) => RealizedScalar(s, initial, x, id), (id: nat, i: nat) => RealizedArray(s, initial, x, id, i))
  }

  ghost function RealizedScalar(s: State, initial: nat -> nat, x: Assignment, id: nat): nat
  {
    if exists i :: i in s.origin && s.origin[i] == id then
      var i :| i in s.origin && s.origin[i] == id;
      initial(i)
    else x.scalars(id)
  }

  ghost function RealizedArray(s: State, initial: nat -> nat, x: Assignment, id: nat, i: nat): nat
  {
    if s.term.Some? && id == Root(s.term.value) then initial(i) else x.arrays(id, i)
  }

  ghost predicate Bounded(initial: nat -> nat, w: nat)
  {
    forall i: nat :: initial(i) < Pow2(w)
  }

  lemma RealizedOrigin(s: State, newest: nat, initial: nat -> nat, x: Assignment, i: nat)
    requires Shaped(s, newest) && i in s.origin
    ensures RealizedScalar(s, initial, x, s.origin[i]) == initial(i)
  {
    var id := s.origin[i];
    assert forall j :: j in s.origin && s.origin[j] == id ==> j == i;
  }

  lemma RealizedInitial(s: State, newest: nat, initial: nat -> nat, x: Assignment, i: nat, w: nat)
    requires Shaped(s, newest) && Bounded(initial, w) && (s.term.None? ==> i < |s.vector|)
    ensures Initial(s, i, Realized(s, initial, x), w) == initial(i)
  {
    SmallWraps(initial(i), Pow2(w));
    if i in s.origin {
      RealizedOrigin(s, newest, initial, x, i);
    } else {
      assert RealizedArray(s, initial, x, Root(s.term.value), i) == initial(i);
    }
  }

  /** Every initial array is realized by some assignment, which differs from a given one at
      most in the symbols made up for elements of this array. */
  lemma EveryArrayIsRealized(s: State, stores: seq<Written>, loads: seq<Observed>, newest: nat,
                             initial: nat -> nat, x: Assignment, w: nat)
    requires Consistent(s, stores, loads, newest, w) && Bounded(initial, w)
    ensures BehavesLike(initial, stores, loads, Realized(s, initial, x), w)
    ensures forall id: nat :: id !in s.origin.Values ==> Realized(s, initial, x).scalars(id) == x.scalars(id)
    ensures forall id: nat, i: nat :: (s.term.Some? ==> id != Root(s.term.value)) ==>
      Realized(s, initial, x).arrays(id, i) == x.arrays(id, i)
  {
    forall i: nat | s.term.None? ==> i < |s.vector| ensures Initial(s, i, Realized(s, initial, x), w) == initial(i) {
      RealizedInitial(s, newest, initial, x, i, w);
    }
    GivenBehaves(s, stores, loads, newest, initial, Realized(s, initial, x), w);
  }

  /** The assignment gives these initial contents to all elements that have been looked at. */
  ghost predicate Gives(s: State, initial: nat -> nat, x: Assignment, w: nat)
  {
    forall i: nat :: (s.term.None? ==> i < |s.vector|) ==> Initial(s, i, x, w) == initial(i)
  }

  lemma GivenBehaves(s: State, stores: seq<Written>, loads: seq<Observed>, newest: nat, initial: nat -> nat,
                     x: Assignment, w: nat)
    requires Consistent(s, stores, loads, newest, w) && Gives(s, initial, x, w)
    ensures BehavesLike(initial, stores, loads, x, w)
  {
    forall k | 0 <= k < |loads|
      ensures loads[k].after <= |stores| && var i := Eval(loads[k].offset, x, w);
        Value(loads[k].value, x, w) == AfterWrites(stores[..loads[k].after], i, initial(i), x, w)
    {
      assert Explained(s, stores, loads[k], x, w);
      assert s.term.None? ==> Within(loads[k].offset, |s.vector|, w);
    }
  }

  // ---- Two arrays ---------------------------------------------------------------------------------

  /** What is realized for one array stays realized for arrays apart from it. */
  lemma RealizedApart(s: State, t: State, newest: nat, first: nat -> nat, second: nat -> nat, x: Assignment, i: nat,
                      w: nat)
    requires Shaped(s, newest) && Apart(s, t) && Bounded(first, w) && (s.term.None? ==> i < |s.vector|)
    ensures Initial(s, i, Realized(t, second, Realized(s, first, x)), w) == first(i)
  {
    RealizedInitial(s, newest, first, x, i, w);
    if i in s.origin {
      assert forall j :: j in t.origin ==> t.origin[j] != s.origin[i];
    }
  }

  /** Main result: any two initial contents of two arrays are realized by one assignment, so
      nothing that is observed of one array says anything about the other. */
  lemma TwoArraysAreRealized(s: State, t: State, stores1: seq<Written>, loads1: seq<Observed>,
                             stores2: seq<Written>, loads2: seq<Observed>, newest: nat,
                             first: nat -> nat, second: nat -> nat, x: Assignment, w: nat)
    requires Consistent(s, stores1, loads1, newest, w) && Consistent(t, stores2, loads2, newest, w) && Apart(s, t)
    requires Bounded(first, w) && Bounded(second, w)
    ensures var y := Realized(t, second, Realized(s, first, x));
      BehavesLike(first, stores1, loads1, y, w) && BehavesLike(second, stores2, loads2, y, w)
  {
    var y := Realized(t, second, Realized(s, first, x));
    forall i: nat | s.term.None? ==> i < |s.vector| ensures Initial(s, i, y, w) == first(i) {
      RealizedApart(s, t, newest, first, second, x, i, w);
    }
    GivenBehaves(s, stores1, loads1, newest, first, y, w);
    forall i: nat | t.term.None? ==> i < |t.vector| ensures Initial(t, i, y, w) == second(i) {
      RealizedInitial(t, newest, second, Realized(s, first, x), i, w);
    }
    GivenBehaves(t, stores2, loads2, newest, second, y, w);
  }

  // ---- The array ------------------------------------------------------------------------------

  /** The global counter of symbols. */
  class Inputs {
    var counter: nat

    constructor ()
      ensures counter == 0
    {
      counter := 0;
    }

    method MakeSymbol() returns (id: nat)
      modifies this
      ensures counter == old(counter) + 1 && id == counter
    {
      counter := counter + 1;
      id := counter;
    }
  }

  /** What indexing returns: an element of the vector, a selection from the store chain, or,
      when the size of the vector would overflow, a nondeterministic value. */
  datatype Temporary =
    | Cell(index: nat, value: Internal)
    | Selected(offset: Internal, value: Internal)
    | Overflow(value: Internal)

  /** A new symbol. */
  ghost predicate IsUnknown(v: Internal, before: nat, after: nat)
  {
    exists id: nat :: before < id <= after && v == Plain(Symbol(id, Word))
  }

  class SymbolicArray {
    const inputs: Inputs
    // the width of words and offsets
    const w: nat
    var term: Option<ArrayTerm>
    var vector: seq<Internal>
    // which symbol stands for the unknown initial value of an element
    ghost var origin: map<nat, nat>
    // all completed operations
    ghost var stores: seq<Written>
    ghost var loads: seq<Observed>

    ghost function Now(): State
      reads this
    {
      State(term, vector, origin)
    }

    ghost predicate Valid()
      reads this, inputs
    {
      Consistent(Now(), stores, loads, inputs.counter, w)
    }

    constructor (inputs: Inputs, w: nat)
      ensures this.inputs == inputs && this.w == w
      ensures Valid() && stores == [] && loads == [] && term.None? && vector == []
    {
      this.inputs, this.w, this.term, this.vector := inputs, w, None, [];
      this.origin, this.stores, this.loads := map[], [], [];
    }

    /** Would the vector have to hold more elements than a word can count? */
    predicate Overflows(offset: Internal)
      reads this
    {
      term.None? && offset.Literal? && offset.v >= |vector| && Wrap(offset.v + 1, w) == 0
    }

    method Grow(size: nat)
      requires Valid() && term.None? && |vector| <= size
      modifies this`vector, this`origin, inputs
      ensures Valid() && |vector| == size
      ensures Introduces(old(Now()), Now(), old(inputs.counter), inputs.counter)
      ensures vector[..|old(vector)|] == old(vector)
      ensures forall i :: |old(vector)| <= i < size ==> i in origin && vector[i] == Plain(Symbol(origin[i], Word))
    {
      while |vector| < size
        invariant Valid() && term.None? && |old(vector)| <= |vector| <= size
        invariant Introduces(old(Now()), Now(), old(inputs.counter), inputs.counter)
        invariant vector[..|old(vector)|] == old(vector)
        invariant forall i :: |old(vector)| <= i < |vector| ==>
          i in origin && vector[i] == Plain(Symbol(origin[i], Word))
        invariant stores == old(stores) && loads == old(loads)
      {
        ghost var s, newest := Now(), inputs.counter;
        var id := inputs.MakeSymbol();
        GrownConsistent(s, stores, loads, newest, id, w);
        origin := origin[|vector| := id];
        vector := vector + [Plain(Symbol(id, Word))];
      }
    }

    /** Represents the vector symbolically and drops it. */
    method Switch()
      requires Valid() && term.None?
      modifies this`term, this`vector, inputs
      ensures Valid() && term.Some? && vector == []
      ensures Introduces(old(Now()), Now(), old(inputs.counter), inputs.counter)
    {
      ghost var s, newest := Now(), inputs.counter;
      var id := inputs.MakeSymbol();
      var a := ArraySymbol(id);
      for i := 0 to |vector|
        invariant a == Chain(id, vector[..i])
      {
        assert vector[..i + 1][..i] == vector[..i];
        a := Store(a, Const(i), TermOf(vector[i]));
      }
      assert vector[..|vector|] == vector;
      SwitchedConsistent(s, stores, loads, newest, id, w);
      SwitchedRoot(s, id);
      term, vector := Some(a), [];
    }

    method At(offset: Internal) returns (t: Temporary)
      requires Valid()
      modifies this`term, this`vector, this`origin, inputs
      ensures Valid()
      ensures Introduces(old(Now()), Now(), old(inputs.counter), inputs.counter)
      ensures t.Overflow? <==> old(Overflows(offset))
      ensures t.Overflow? ==> Now() == old(Now()) && IsUnknown(t.value, old(inputs.counter), inputs.counter)
      ensures t.Cell? ==> term.None? && offset == Literal(t.index) && t.index < |vector| && t.value == vector[t.index]
      ensures t.Selected? ==> term.Some? && t.offset == offset && t.value == Plain(Select(term.value, TermOf(offset)))
      ensures old(term).Some? ==> term.Some?
    {
      if term.None? {
        if offset.Literal? {
          if offset.v >= |vector| {
            if Wrap(offset.v + 1, w) == 0 {
              var id := MakeSymbol();
              return Overflow(Plain(Symbol(id, Word)));
            }
            Grow(offset.v + 1);
          }
          return Cell(offset.v, vector[offset.v]);
        }
        Switch();
      }
      return Selected(offset, Plain(Select(term.value, TermOf(offset))));
    }

    /** A symbol that stands for no element. */
    method MakeSymbol() returns (id: nat)
      requires Valid()
      modifies inputs
      ensures Valid() && inputs.counter == old(inputs.counter) + 1 && id == inputs.counter
    {
      id := inputs.MakeSymbol();
    }

    /** `array[offset]` on its own. */
    method Read(offset: Internal) returns (v: Internal)
      requires Valid()
      modifies this, inputs
      ensures Valid() && stores == old(stores)
      ensures Introduces(old(Now()), Now(), old(inputs.counter), inputs.counter)
      ensures old(Overflows(offset)) ==> IsUnknown(v, old(inputs.counter), inputs.counter)
      ensures loads == old(loads) + if old(Overflows(offset)) then [] else [Observed(|stores|, TermOf(offset), v)]
    {
      var t := At(offset);
      v := t.value;
      if !t.Overflow? {
        TemporaryReads(Now(), t, offset, w);
        ReadConsistent(Now(), stores, loads, inputs.counter, TermOf(offset), v, w);
        loads := loads + [Observed(|stores|, TermOf(offset), v)];
      }
    }

    /** `array[offset] = v`; the source disallows writes after an overflow. */
    method Write(offset: Internal, v: Internal)
      requires Valid() && !Overflows(offset)
      modifies this, inputs
      ensures Valid() && loads == old(loads)
      ensures Introduces(old(Now()), Now(), old(inputs.counter), inputs.counter)
      ensures stores == old(stores) + [Written(TermOf(offset), TermOf(v))]
    {
      var t := At(offset);
      ghost var s := Now();
      if t.Cell? {
        ReplaceCell(s, t.index, v, w);
        vector := vector[t.index := v];
      } else {
        ReplaceByStore(s, TermOf(offset), TermOf(v), w);
        term := Some(Store(term.value, TermOf(offset), TermOf(v)));
      }
      WriteConsistent(s, Now(), stores, loads, inputs.counter, TermOf(offset), TermOf(v), w);
      stores := stores + [Written(TermOf(offset), TermOf(v))];
    }
  }

  // ---- Programs that use two arrays ---------------------------------------------------------------

  /** A read or write of the first or the second array. */
  datatype Access =
    | ReadOf(first: bool, offset: Internal)
    | WriteOf(first: bool, offset: Internal, value: Internal)

  ghost predicate BothValid(a: SymbolicArray, b: SymbolicArray, w: nat)
    reads a, b, a.inputs, b.inputs
  {
    && a.inputs == b.inputs && a.w == w && b.w == w && a != b
    && a.Valid() && b.Valid() && Apart(a.Now(), b.Now())
  }

  /** The access would overflow a vector that is not as long yet. */
  predicate MayOverflow(access: Access, w: nat)
  {
    access.offset.Literal? && Wrap(access.offset.v + 1, w) == 0
  }

  /** The writes to one of the arrays, but for the accesses skipped. */
  function WritesTo(accesses: seq<Access>, skipped: seq<bool>, first: bool): seq<Written>
    requires |skipped| == |accesses|
  {
    if accesses == [] then []
    else
      var n := |accesses| - 1;
      var before, last := WritesTo(accesses[..n], skipped[..n], first), accesses[n];
      if last.WriteOf? && last.first == first && !skipped[n]
      then before + [Written(TermOf(last.offset), TermOf(last.value))] else before
  }

  /** The offsets read from one of the arrays, but for the accesses skipped. */
  function ReadsFrom(accesses: seq<Access>, skipped: seq<bool>, first: bool): seq<Term>
    requires |skipped| == |accesses|
  {
    if accesses == [] then []
    else
      var n := |accesses| - 1;
      var before, last := ReadsFrom(accesses[..n], skipped[..n], first), accesses[n];
      if last.ReadOf? && last.first == first && !skipped[n] then before + [TermOf(last.offset)] else before
  }

  function Offsets(loads: seq<Observed>): (ts: seq<Term>)
    ensures |ts| == |loads| && forall k :: 0 <= k < |loads| ==> ts[k] == loads[k].offset
  {
    seq(|loads|, (k: int) requires 0 <= k < |loads| => loads[k].offset)
  }

  /** The array has been accessed as the list says. */
  ghost predicate Accessed(a: SymbolicArray, accesses: seq<Access>, skipped: seq<bool>, first: bool)
    reads a
  {
    && |skipped| == |accesses|
    && a.stores == WritesTo(accesses, skipped, first) && Offsets(a.loads) == ReadsFrom(accesses, skipped, first)
  }

  /** Both arrays have, and only accesses that may overflow have been skipped. */
  ghost predicate BothAccessed(a: SymbolicArray, b: SymbolicArray, accesses: seq<Access>, skipped: seq<bool>, w: nat)
    reads a, b
  {
    && |skipped| == |accesses| && (forall k :: 0 <= k < |skipped| && skipped[k] ==> MayOverflow(accesses[k], w))
    && Accessed(a, accesses, skipped, true) && Accessed(b, accesses, skipped, false)
  }

  /** Whatever initial contents one chooses for the two arrays, some assignment makes all values
      read those of ordinary arrays with these contents. */
  ghost predicate AllRealized(a: SymbolicArray, b: SymbolicArray, w: nat)
    reads a, b
  {
    forall first: nat -> nat, second: nat -> nat :: Bounded(first, w) && Bounded(second, w) ==>
      exists x: Assignment ::
        BehavesLike(first, a.stores, a.loads, x, w) && BehavesLike(second, b.stores, b.loads, x, w)
  }

  method TwoArrays(inputs: Inputs, w: nat) returns (a: SymbolicArray, b: SymbolicArray)
    ensures fresh(a) && fresh(b) && a.inputs == inputs
    ensures BothValid(a, b, w) && BothAccessed(a, b, [], [], w)
  {
    a := new SymbolicArray(inputs, w);
    b := new SymbolicArray(inputs, w);
  }

  /** Does all accesses, one after the other, but for those that overflow. */
  method RunAccesses(accesses: seq<Access>, inputs: Inputs, w: nat)
    returns (a: SymbolicArray, b: SymbolicArray, ghost skipped: seq<bool>)
    modifies inputs
    ensures BothValid(a, b, w) && BothAccessed(a, b, accesses, skipped, w)
    ensures AllRealized(a, b, w)
  {
    a, b := TwoArrays(inputs, w);
    skipped := [];
    for i := 0 to |accesses|
      invariant fresh(a) && fresh(b) && a.inputs == inputs && BothValid(a, b, w)
      invariant BothAccessed(a, b, accesses[..i], skipped, w)
    {
      assert accesses[..i + 1] == accesses[..i] + [accesses[i]];
      skipped := AccessEither(accesses[..i], skipped, accesses[i], a, b, w);
    }
    assert accesses[..|accesses|] == accesses;
    BothRealized(a, b, w);
  }

  method AccessEither(ghost before: seq<Access>, ghost skipped: seq<bool>, access: Access, a: SymbolicArray,
                      b: SymbolicArray, w: nat) returns (ghost skipped': seq<bool>)
    requires BothValid(a, b, w) && BothAccessed(a, b, before, skipped, w)
    modifies a, b, a.inputs
    ensures BothValid(a, b, w) && BothAccessed(a, b, before + [access], skipped', w)
  {
    ghost var skip;
    if access.first {
      skip := AccessOne(before, skipped, access, a, b, w);
    } else {
      skip := AccessOne(before, skipped, access, b, a, w);
    }
    skipped' := skipped + [skip];
  }

  method AccessOne(ghost before: seq<Access>, ghost skipped: seq<bool>, access: Access, a: SymbolicArray,
                   b: SymbolicArray, w: nat) returns (ghost skip: bool)
    requires BothValid(a, b, w) && Accessed(a, before, skipped, access.first)
    requires Accessed(b, before, skipped, !access.first)
    modifies a, a.inputs
    ensures BothValid(a, b, w) && BothValid(b, a, w)
    ensures skip ==> MayOverflow(access, w)
    ensures Accessed(a, before + [access], skipped + [skip], access.first)
    ensures Accessed(b, before + [access], skipped + [skip], !access.first)
  {
    ghost var s, t, newest := a.Now(), b.Now(), a.inputs.counter;
    skip := a.Overflows(access.offset);
    match access
    case ReadOf(_, offset) =>
      var _ := a.Read(offset);
    case WriteOf(_, offset, value) =>
      if !a.Overflows(offset) {
        a.Write(offset, value);
      } else {
        IntroducesNothing(s, newest);
      }
    StayApart(s, a.Now(), t, newest, a.inputs.counter);
    NewerConsistent(t, b.stores, b.loads, newest, a.inputs.counter, w);
    NextAccess(before, access, skipped, skip);
  }

  lemma NextAccess(before: seq<Access>, access: Access, skipped: seq<bool>, skip: bool)
    requires |skipped| == |before|
    ensures (before + [access])[..|before|] == before && (skipped + [skip])[..|before|] == skipped
  {
  }

  lemma IntroducesNothing(s: State, newest: nat)
    ensures Introduces(s, s, newest, newest)
  {
  }

  lemma BothRealized(a: SymbolicArray, b: SymbolicArray, w: nat)
    requires BothValid(a, b, w)
    ensures AllRealized(a, b, w)
  {
    forall first: nat -> nat, second: nat -> nat | Bounded(first, w) && Bounded(second, w)
      ensures exists x: Assignment ::
        BehavesLike(first, a.stores, a.loads, x, w) && BehavesLike(second, b.stores, b.loads, x, w)
    {
      var x := Assignment((id: nat) => 0, (id: nat, i: nat) => 0);
      TwoArraysAreRealized(a.Now(), b.Now(), a.stores, a.loads, b.stores, b.loads, a.inputs.counter,
                           first, second, x, w);
      assert BehavesLike(first, a.stores, a.loads, Realized(b.Now(), second, Realized(a.Now(), first, x)), w);
    }
  }

  lemma TemporaryReads(s: State, t: Temporary, offset: Internal, w: nat)
    requires t.Cell? ==>
      s.term.None? && offset == Literal(t.index) && t.index < |s.vector| && t.value == s.vector[t.index]
    requires t.Selected? ==> s.term.Some? && t.value == Plain(Select(s.term.value, TermOf(offset)))
    requires !t.Overflow?
    ensures ReadsElement(s, TermOf(offset), t.value, w)
  {
    if t.Cell? {
      assert forall x: Assignment :: Eval(Const(t.index), x, w) == t.index;
    }
  }
}
