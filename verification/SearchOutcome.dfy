/** What the search over unsat cores keeps and what it loses, in terms of the recorded
    decisions and guards alone. */
module SearchOutcome {
  import opened Formulas
  import opened DecisionTrees
  import opened PathConditions
  import opened BacktrackChecker

  ghost predicate Consistent(asserted: seq<Formula>, gs: seq<Formula>)
  {
    exists x: Input :: AllHold(asserted, x) && AllHold(gs, x)
  }

  /** The guards turned around at an unfrozen flip are consistent with what is asserted. */
  ghost predicate SurvivesAt(asserted: seq<Formula>, gs: seq<Formula>, flips: seq<Flip>, j: nat)
    requires |gs| == |flips|
  {
    j < |flips| && !flips[j].frozen && Consistent(asserted, FlippedAt(gs, j))
  }

  /** Either the whole path or some prefix turned around at or after `i` is consistent. */
  ghost predicate Survives(asserted: seq<Formula>, gs: seq<Formula>, flips: seq<Flip>, i: nat)
    requires |gs| == |flips|
  {
    Consistent(asserted, gs) || exists j: nat :: i <= j && SurvivesAt(asserted, gs, flips, j)
  }

  /** `d` leaves the recorded decisions at an unfrozen flip `i`, or goes on after all. */
  ghost predicate PartsAt(flips: seq<Flip>, d: Path, i: nat)
  {
    if i < |flips| then DivergesAt(flips, d, i) else i == |flips| && Dirs(flips) <= d
  }

  lemma TodoParts(flips: seq<Flip>, d: Path)
    ensures Todo(flips, d) <==> exists i: nat :: PartsAt(flips, d, i)
  {
    if Dirs(flips) <= d {
      assert PartsAt(flips, d, |flips|);
    }
    if Pending(flips, d) {
      var i: nat :| i < |flips| && DivergesAt(flips, d, i);
      assert PartsAt(flips, d, i);
    }
  }

  /** The solver reports every conflict that the search can ask about. */
  ghost predicate Reports(o: Oracle, asserted: seq<Formula>, gs: seq<Formula>)
  {
    !Consistent(asserted, gs) ==> forall n :: o.assume_(n, asserted, gs).Core?
  }

  ghost predicate Answers(o: Oracle, asserted: seq<Formula>, gs: seq<Formula>, flips: seq<Flip>)
    requires |gs| == |flips|
  {
    && Reports(o, asserted, gs)
    && forall j: nat :: j < |flips| && !flips[j].frozen ==> Reports(o, asserted, FlippedAt(gs, j))
  }

  // ---- One cut -----------------------------------------------------------------------------

  /** `r` keeps the flips before `m`, turns flip `m` around and drops the rest, which up to
      `k` is frozen. */
  ghost predicate TurnsAt(flips: seq<Flip>, k: nat, r: seq<Flip>, m: nat)
  {
    && m <= k < |flips| && |r| == m + 1 && !flips[m].frozen
    && r[..m] == flips[..m] && r[m] == Flip(!flips[m].direction, true)
    && forall j :: m < j <= k ==> flips[j].frozen
  }

  lemma {:induction false} NextFlipsTurns(flips: seq<Flip>)
    ensures NextFlips(flips) == [] ==> forall j :: 0 <= j < |flips| ==> flips[j].frozen
    ensures NextFlips(flips) != [] ==> TurnsAt(flips, |flips| - 1, NextFlips(flips), |NextFlips(flips)| - 1)
  {
    if flips != [] && flips[|flips| - 1].frozen {
      var front, r := flips[..|flips| - 1], NextFlips(flips);
      NextFlipsTurns(front);
      if r != [] {
        assert front[..|r| - 1] == flips[..|r| - 1];
      }
      assert forall j :: 0 <= j < |front| ==> flips[j] == front[j];
    }
  }

  lemma CutTurns(guards: seq<Guard>, flips: seq<Flip>, c: nat) returns (k: nat)
    requires |guards| == |flips| && c < |guards|
    ensures c <= k < |flips|
    ensures CutFlips(guards, flips, c) == NextFlips(flips[..k + 1])
    ensures var r := CutFlips(guards, flips, c);
      if r == [] then forall j :: 0 <= j <= k ==> flips[j].frozen else TurnsAt(flips, k, r, |r| - 1)
  {
    k := LastAt(guards, guards[c].addr);
    var front := flips[..k + 1];
    NextFlipsTurns(front);
    assert forall j :: 0 <= j <= k ==> front[j] == flips[j];
    var r := CutFlips(guards, flips, c);
    if r != [] {
      assert front[..|r| - 1] == flips[..|r| - 1];
    }
  }

  lemma FlipLastTerms(guards: seq<Guard>, n: nat, a: nat)
    requires 0 < n <= |guards|
    ensures Terms(FlipLast(guards, n, a)) == FlippedAt(Terms(guards), n - 1)
  {
  }

  /** A refuted prefix refutes everything that goes on from it. */
  lemma PrefixRefutes(asserted: seq<Formula>, gs: seq<Formula>, c: nat, hs: seq<Formula>)
    requires c < |gs| && c < |hs| && hs[..c + 1] == gs[..c + 1]
    requires forall x: Input :: !(AllHold(asserted, x) && AllHold(gs[..c + 1], x))
    ensures !Consistent(asserted, hs)
  {
    forall x: Input | AllHold(hs, x) ensures AllHold(gs[..c + 1], x) {
      assert forall i :: 0 <= i < c + 1 ==> hs[..c + 1][i] == hs[i];
    }
  }

  lemma CoreRefutes(o: Oracle, n: nat, asserted: seq<Formula>, gs: seq<Formula>, c: nat, j: nat)
    requires Reliable(o) && o.assume_(n, asserted, gs) == Core(c)
    ensures c < |gs| && !Consistent(asserted, gs)
    ensures c < j < |gs| ==> !Consistent(asserted, FlippedAt(gs, j))
  {
    PrefixRefutes(asserted, gs, c, gs);
    if c < j < |gs| {
      assert FlippedAt(gs, j)[..c + 1] == gs[..c + 1];
      PrefixRefutes(asserted, gs, c, FlippedAt(gs, j));
    }
  }

  /** Turning around at `j` after turning around at a later `m` is turning around at `j`. */
  lemma FlippedTwice(gs: seq<Formula>, m: nat, j: nat)
    requires j < m < |gs|
    ensures FlippedAt(FlippedAt(gs, m), j) == FlippedAt(gs, j)
  {
    var hs := FlippedAt(gs, m);
    assert hs[..j] == gs[..j] && hs[j] == gs[j];
  }

  /** What survives a cut, seen from before and after. */
  lemma SurvivesCut(asserted: seq<Formula>, gs: seq<Formula>, flips: seq<Flip>, k: nat, r: seq<Flip>, m: nat, i: nat)
    requires |gs| == |flips| && TurnsAt(flips, k, r, m) && i <= m
    requires !Consistent(asserted, gs)
    requires forall j :: k < j < |flips| ==> !Consistent(asserted, FlippedAt(gs, j))
    ensures Survives(asserted, gs, flips, i) <==>
      Survives(asserted, FlippedAt(gs, m), r, if i == m then m + 1 else i)
  {
    var hs, i' := FlippedAt(gs, m), if i == m then m + 1 else i;
    forall j: nat | j < m
      ensures SurvivesAt(asserted, hs, r, j) <==> SurvivesAt(asserted, gs, flips, j)
    {
      FlippedTwice(gs, m, j);
      assert r[j] == r[..m][j] == flips[..m][j] == flips[j];
    }
    if Survives(asserted, gs, flips, i) {
      var j: nat :| i <= j && SurvivesAt(asserted, gs, flips, j);
      assert j <= m;
      if j < m {
        assert SurvivesAt(asserted, hs, r, j);
      }
    }
    if Survives(asserted, hs, r, i') {
      if Consistent(asserted, hs) {
        assert SurvivesAt(asserted, gs, flips, m);
      } else {
        var j: nat :| i' <= j && SurvivesAt(asserted, hs, r, j);
        assert j < m;
        assert SurvivesAt(asserted, gs, flips, j);
      }
    }
  }

  lemma AnswersCut(o: Oracle, asserted: seq<Formula>, gs: seq<Formula>, flips: seq<Flip>, k: nat, r: seq<Flip>, m: nat)
    requires |gs| == |flips| && TurnsAt(flips, k, r, m) && Answers(o, asserted, gs, flips)
    ensures Answers(o, asserted, FlippedAt(gs, m), r)
  {
    forall j: nat | j < |r| && !r[j].frozen ensures Reports(o, asserted, FlippedAt(FlippedAt(gs, m), j)) {
      FlippedTwice(gs, m, j);
      assert r[j] == r[..m][j] == flips[..m][j] == flips[j];
    }
  }

  lemma PartsAfterCut(flips: seq<Flip>, k: nat, r: seq<Flip>, m: nat, d: Path, i: nat)
    requires TurnsAt(flips, k, r, m) && PartsAt(flips, d, i) && i <= k
    ensures i <= m && PartsAt(r, d, if i == m then m + 1 else i)
  {
    assert Dirs(r)[..m] == Dirs(flips)[..m] by {
      forall j | 0 <= j < m ensures Dirs(r)[j] == Dirs(flips)[j] {
        assert r[j] == r[..m][j] == flips[..m][j] == flips[j];
      }
    }
    if i == m {
      assert d[..m + 1] == Dirs(r);
    } else {
      assert Dirs(r)[..i] == Dirs(r)[..m][..i] == Dirs(flips)[..m][..i] == Dirs(flips)[..i];
      assert r[i] == r[..m][i] == flips[..m][i] == flips[i];
    }
  }

  // ---- The whole search ----------------------------------------------------------------------

  lemma {:induction false} PrefixPending(flips: seq<Flip>, k: nat, d: Path)
    requires k <= |flips|
    ensures Pending(flips[..k], d) ==> Pending(flips, d)
    ensures Dirs(flips)[..k] <= d ==> !Pending(flips[..k], d)
  {
    var front := flips[..k];
    assert Dirs(front) == Dirs(flips)[..k];
    if i :| 0 <= i < |front| && DivergesAt(front, d, i) {
      assert Dirs(front)[..i] == Dirs(flips)[..i];
      assert DivergesAt(flips, d, i);
    }
    if Dirs(front) <= d {
      CurrentIsNotPending(front, d);
    }
  }

  /** A cut goes on only to pending leaves. */
  lemma CutNarrows(guards: seq<Guard>, flips: seq<Flip>, c: nat, d: Path)
    requires |guards| == |flips| && c < |guards|
    ensures var r := CutFlips(guards, flips, c);
      r != [] && Todo(r, d) ==> Pending(flips, d)
  {
    var k := CutTurns(guards, flips, c);
    NextFlipsKeepsPending(flips[..k + 1], d);
    PrefixPending(flips, k + 1, d);
  }

  /** One round of the search: cut back to guard `k`, go on with `r` and `guards'` if anything
      is left. */
  lemma SearchRound(o: Oracle, address: nat -> nat, asserted: seq<Formula>, guards: seq<Guard>, flips: seq<Flip>,
                    checks: nat, terms: nat, target: SearchResult)
    returns (c: nat, k: nat, r: seq<Flip>, guards': seq<Guard>)
    requires Reliable(o) && |guards| == |flips| && o.assume_(checks, asserted, Terms(guards)).Core?
    requires SearchesTo(o, address, asserted, guards, flips, checks, terms, target)
    ensures o.assume_(checks, asserted, Terms(guards)) == Core(c) && c <= k < |flips|
    ensures CutsTo(flips, k, r)
    ensures r == [] ==> target == SearchResult([], checks + 1, terms)
    ensures r != [] ==> |r| <= |guards| && guards' == FlipLast(guards, |r|, address(terms)) && |guards'| == |r|
    ensures r != [] ==> Unfrozen(r) < Unfrozen(flips)
    ensures r != [] ==> SearchesTo(o, address, asserted, guards', r, checks + 1, terms + 1, target)
  {
    c := o.assume_(checks, asserted, Terms(guards)).last;
    k := CutTurns(guards, flips, c);
    r := CutFlips(guards, flips, c);
    guards' := if r == [] then [] else FlipLast(guards, |r|, address(terms));
    SearchUnfolds(o, address, asserted, guards, flips, checks, terms);
  }

  /** `r` is what is left of the decisions after a cut at guard `k`. */
  ghost predicate CutsTo(flips: seq<Flip>, k: nat, r: seq<Flip>)
    requires k < |flips|
  {
    if r == [] then forall j :: 0 <= j <= k ==> flips[j].frozen else TurnsAt(flips, k, r, |r| - 1)
  }

  /** So does the search: no leaf that is done comes back. */
  lemma {:induction false} SearchNarrows(o: Oracle, address: nat -> nat, asserted: seq<Formula>, guards: seq<Guard>,
                                         flips: seq<Flip>, checks: nat, terms: nat, d: Path)
    requires Reliable(o) && |guards| == |flips| && Conflict(o, checks, asserted, guards)
    ensures var r := Search(o, address, asserted, guards, flips, checks, terms).flips;
      r != [] && Todo(r, d) ==> Pending(flips, d)
    decreases Unfrozen(flips)
  {
    var c := o.assume_(checks, asserted, Terms(guards)).last;
    var r1 := CutFlips(guards, flips, c);
    SearchUnfolds(o, address, asserted, guards, flips, checks, terms);
    CutNarrows(guards, flips, c, d);
    if r1 != [] {
      var guards1 := FlipLast(guards, |r1|, address(terms));
      if Conflict(o, checks + 1, asserted, guards1) {
        SearchNarrows(o, address, asserted, guards1, r1, checks + 1, terms + 1, d);
        PendingIsTodo(flips, r1, d);
      } else {
        SearchRests(o, address, asserted, guards1, r1, checks + 1, terms + 1);
      }
    }
  }

  lemma PendingIsTodo(flips: seq<Flip>, r: seq<Flip>, d: Path)
    ensures Pending(r, d) ==> Todo(r, d)
  {
  }

  lemma SearchRests(o: Oracle, address: nat -> nat, asserted: seq<Formula>, guards: seq<Guard>, flips: seq<Flip>,
                    checks: nat, terms: nat)
    requires Reliable(o) && |guards| == |flips| && guards != [] && !Conflict(o, checks, asserted, guards)
    ensures Search(o, address, asserted, guards, flips, checks, terms).flips == flips
  {
  }

  lemma SearchNarrowsTodo(o: Oracle, address: nat -> nat, asserted: seq<Formula>, guards: seq<Guard>, flips: seq<Flip>,
                          checks: nat, terms: nat, r: SearchResult, d: Path)
    requires Reliable(o) && |guards| == |flips| && guards != []
    requires SearchesTo(o, address, asserted, guards, flips, checks, terms, r)
    ensures Keeps(r.flips, d) ==> Keeps(flips, d)
  {
    if Conflict(o, checks, asserted, guards) {
      SearchNarrows(o, address, asserted, guards, flips, checks, terms, d);
    } else {
      SearchStops(o, address, asserted, guards, flips, checks, terms, r);
    }
  }

  ghost predicate Keeps(r: seq<Flip>, d: Path)
  {
    r != [] && Todo(r, d)
  }

  /** A leaf below a refuted prefix is not to do after the cut. */
  lemma BeyondCoreIsLost(flips: seq<Flip>, k: nat, r: seq<Flip>, d: Path, i: nat)
    requires PartsAt(flips, d, i) && k < i && k < |flips| && CutsTo(flips, k, r)
    ensures !Keeps(r, d)
  {
    var m := |r| - 1;
    PartsBeyond(flips, d, i, k);
    forall i | 0 <= i <= k ensures d[i] == flips[i].direction {
      assert d[i] == d[..k + 1][i] == Dirs(flips)[..k + 1][i];
    }
    if r != [] {
      assert forall i :: 0 <= i < m ==> r[i] == r[..m][i] == flips[..m][i];
      assert Dirs(r)[m] == r[m].direction;
    }
  }

  lemma PartsBeyond(flips: seq<Flip>, d: Path, i: nat, k: nat)
    requires PartsAt(flips, d, i) && k < i
    ensures k < |flips| && Dirs(flips)[..k + 1] <= d
  {
    if i < |flips| {
      assert d[..k + 1] == d[..i][..k + 1] == Dirs(flips)[..i][..k + 1] == Dirs(flips)[..k + 1];
    }
  }

  /** Nothing at or after a refuted guard survives. */
  lemma NothingSurvives(o: Oracle, n: nat, asserted: seq<Formula>, gs: seq<Formula>, flips: seq<Flip>, c: nat, i: nat)
    requires Reliable(o) && o.assume_(n, asserted, gs) == Core(c) && |gs| == |flips| && c < i
    ensures !Survives(asserted, gs, flips, i)
  {
    CoreRefutes(o, n, asserted, gs, c, 0);
    forall j: nat | i <= j ensures !SurvivesAt(asserted, gs, flips, j) {
      CoreRefutes(o, n, asserted, gs, c, j);
    }
  }

  /** Exactly what the search keeps.  A leaf that parts from the recorded decisions at `i` is
      kept if the whole path, or a prefix turned around at or after `i`, is consistent with
      the contents of the solver; and if the solver reports its conflicts, only then. */
  lemma {:induction false} SearchExact(o: Oracle, address: nat -> nat, asserted: seq<Formula>, guards: seq<Guard>,
                                       flips: seq<Flip>, checks: nat, terms: nat, r: seq<Flip>, d: Path, i: nat)
    requires Reliable(o) && |guards| == |flips| && flips != [] && PartsAt(flips, d, i)
    requires r == Search(o, address, asserted, guards, flips, checks, terms).flips
    ensures Survives(asserted, Terms(guards), flips, i) ==> Keeps(r, d)
    ensures Answers(o, asserted, Terms(guards), flips) && Keeps(r, d) ==> Survives(asserted, Terms(guards), flips, i)
  {
    SearchKeepsExactly(o, address, asserted, guards, flips, checks, terms,
                       Search(o, address, asserted, guards, flips, checks, terms), d, i, Unfrozen(flips));
  }

  ghost predicate KeepsExactly(o: Oracle, asserted: seq<Formula>, gs: seq<Formula>, flips: seq<Flip>, r: seq<Flip>,
                               d: Path, i: nat)
    requires |gs| == |flips|
  {
    && (Survives(asserted, gs, flips, i) ==> Keeps(r, d))
    && (Answers(o, asserted, gs, flips) && Keeps(r, d) ==> Survives(asserted, gs, flips, i))
  }

  lemma {:induction false} SearchKeepsExactly(o: Oracle, address: nat -> nat, asserted: seq<Formula>,
                                              guards: seq<Guard>, flips: seq<Flip>, checks: nat, terms: nat,
                                              r: SearchResult, d: Path, i: nat, left: nat)
    requires Reliable(o) && left == Unfrozen(flips) && |guards| == |flips| && flips != [] && PartsAt(flips, d, i)
    requires SearchesTo(o, address, asserted, guards, flips, checks, terms, r)
    ensures KeepsExactly(o, asserted, Terms(guards), flips, r.flips, d, i)
    decreases left
  {
    if o.assume_(checks, asserted, Terms(guards)).NoCore? {
      SearchStops(o, address, asserted, guards, flips, checks, terms, r);
      RestsExact(o, checks, asserted, Terms(guards), flips, d, i);
    } else {
      var c, k, r1, guards1 := SearchRound(o, address, asserted, guards, flips, checks, terms, r);
      if k < i {
        BeyondCut(o, address, asserted, guards, flips, checks, terms, r, d, i, c, k, guards1, r1);
      } else {
        CutParts(flips, d, i, k, r1);
        SearchKeepsExactly(o, address, asserted, guards1, r1, checks + 1, terms + 1, r, d, NextPart(r1, i),
                           Unfrozen(r1));
        CutKeepsExactly(o, checks, asserted, guards, flips, d, i, c, k, r1, address(terms), r.flips);
      }
    }
  }

  /** The search ends at a path that is not refuted. */
  lemma RestsExact(o: Oracle, n: nat, asserted: seq<Formula>, gs: seq<Formula>, flips: seq<Flip>, d: Path, i: nat)
    requires |gs| == |flips| && flips != [] && PartsAt(flips, d, i) && o.assume_(n, asserted, gs).NoCore?
    ensures KeepsExactly(o, asserted, gs, flips, flips, d, i)
  {
    TodoParts(flips, d);
  }

  /** A leaf beyond the cut is lost, and nothing there survives. */
  lemma BeyondExact(o: Oracle, n: nat, asserted: seq<Formula>, gs: seq<Formula>, flips: seq<Flip>, d: Path, i: nat,
                    c: nat, r: seq<Flip>)
    requires Reliable(o) && |gs| == |flips| && o.assume_(n, asserted, gs) == Core(c) && c < i && !Keeps(r, d)
    ensures KeepsExactly(o, asserted, gs, flips, r, d, i)
  {
    NothingSurvives(o, n, asserted, gs, flips, c, i);
  }

  lemma BeyondCut(o: Oracle, address: nat -> nat, asserted: seq<Formula>, guards: seq<Guard>, flips: seq<Flip>,
                  checks: nat, terms: nat, target: SearchResult, d: Path, i: nat, c: nat, k: nat,
                  guards': seq<Guard>, r: seq<Flip>)
    requires Reliable(o) && |guards| == |flips| && o.assume_(checks, asserted, Terms(guards)) == Core(c)
    requires PartsAt(flips, d, i) && c <= k < i && k < |flips| && CutsTo(flips, k, r)
    requires if r == [] then target.flips == []
             else |guards'| == |r| && SearchesTo(o, address, asserted, guards', r, checks + 1, terms + 1, target)
    ensures KeepsExactly(o, asserted, Terms(guards), flips, target.flips, d, i)
  {
    BeyondCoreIsLost(flips, k, r, d, i);
    LostStaysLost(o, address, asserted, guards', r, checks + 1, terms + 1, target, d);
    BeyondExact(o, checks, asserted, Terms(guards), flips, d, i, c, target.flips);
  }

  lemma LostStaysLost(o: Oracle, address: nat -> nat, asserted: seq<Formula>, guards: seq<Guard>, flips: seq<Flip>,
                      checks: nat, terms: nat, r: SearchResult, d: Path)
    requires Reliable(o) && !Keeps(flips, d)
    requires if flips == [] then r.flips == []
             else |guards| == |flips| && SearchesTo(o, address, asserted, guards, flips, checks, terms, r)
    ensures !Keeps(r.flips, d)
  {
    if flips != [] {
      SearchNarrowsTodo(o, address, asserted, guards, flips, checks, terms, r, d);
    }
  }

  /** What is exact after a cut is exact before it. */
  lemma CutKeepsExactly(o: Oracle, n: nat, asserted: seq<Formula>, guards: seq<Guard>, flips: seq<Flip>, d: Path,
                        i: nat, c: nat, k: nat, r: seq<Flip>, a: nat, last: seq<Flip>)
    requires Reliable(o) && |guards| == |flips| && o.assume_(n, asserted, Terms(guards)) == Core(c) && c <= k < |flips|
    requires r != [] && |r| <= |guards| && TurnsAt(flips, k, r, |r| - 1)
    requires PartsAt(flips, d, i) && i <= k
    requires KeepsExactly(o, asserted, Terms(FlipLast(guards, |r|, a)), r, last, d, NextPart(r, i))
    ensures KeepsExactly(o, asserted, Terms(guards), flips, last, d, i)
  {
    CutExact(o, n, asserted, guards, flips, d, i, c, k, r, a);
  }

  /** Where a leaf parts from the decisions after a cut. */
  function NextPart(r: seq<Flip>, i: nat): nat
  {
    if i == |r| - 1 then |r| else i
  }

  /** The leaf still parts from what is left after a cut. */
  lemma CutParts(flips: seq<Flip>, d: Path, i: nat, k: nat, r: seq<Flip>)
    requires PartsAt(flips, d, i) && i <= k < |flips| && CutsTo(flips, k, r)
    ensures r != [] && PartsAt(r, d, NextPart(r, i))
  {
    assert !flips[i].frozen;
    PartsAfterCut(flips, k, r, |r| - 1, d, i);
  }

  /** One cut neither changes what survives nor what the solver must answer. */
  lemma CutExact(o: Oracle, n: nat, asserted: seq<Formula>, guards: seq<Guard>, flips: seq<Flip>, d: Path, i: nat,
                 c: nat, k: nat, r: seq<Flip>, a: nat)
    requires Reliable(o) && |guards| == |flips| && o.assume_(n, asserted, Terms(guards)) == Core(c) && c <= k < |flips|
    requires if r == [] then forall j :: 0 <= j <= k ==> flips[j].frozen else TurnsAt(flips, k, r, |r| - 1)
    requires PartsAt(flips, d, i) && i <= k
    ensures r != [] && |r| <= |guards| && PartsAt(r, d, NextPart(r, i))
    ensures var hs := Terms(FlipLast(guards, |r|, a));
      && (Survives(asserted, Terms(guards), flips, i) <==> Survives(asserted, hs, r, NextPart(r, i)))
      && (Answers(o, asserted, Terms(guards), flips) ==> Answers(o, asserted, hs, r))
  {
    var gs, m := Terms(guards), |r| - 1;
    assert !flips[i].frozen;
    PartsAfterCut(flips, k, r, m, d, i);
    FlipLastTerms(guards, |r|, a);
    CoreRefutes(o, n, asserted, gs, c, 0);
    forall j | k < j < |flips| ensures !Consistent(asserted, FlippedAt(gs, j)) {
      CoreRefutes(o, n, asserted, gs, c, j);
    }
    SurvivesCut(asserted, gs, flips, k, r, m, i);
    if Answers(o, asserted, gs, flips) {
      AnswersCut(o, asserted, gs, flips, k, r, m);
    }
  }

  // ---- What else the search preserves ----------------------------------------------------------

  lemma {:induction false} ReachablePrefix(p: Program, ds: Path, k: nat)
    requires Reachable(p, ds) && k <= |ds|
    ensures Reachable(p, ds[..k])
    decreases |ds|
  {
    if k == |ds| {
      assert ds[..k] == ds;
    } else {
      ReachableSibling(p, ds);
      assert ds[..|ds| - 1][..k] == ds[..k];
      ReachablePrefix(p, ds[..|ds| - 1], k);
    }
  }

  lemma CutReachable(p: Program, flips: seq<Flip>, k: nat, r: seq<Flip>)
    requires k < |flips| && CutsTo(flips, k, r) && Reachable(p, Dirs(flips))
    ensures Reachable(p, Dirs(r))
  {
    if r == [] {
      ReachablePrefix(p, Dirs(flips), 0);
    } else {
      var m := |r| - 1;
      var front := Dirs(flips)[..m + 1];
      ReachablePrefix(p, Dirs(flips), m + 1);
      ReachableSibling(p, front);
      assert forall i :: 0 <= i < m ==> r[i] == r[..m][i] == flips[..m][i];
      assert Dirs(r) == front[..m] + [!front[m]];
    }
  }

  lemma {:induction false} SearchReachable(p: Program, o: Oracle, address: nat -> nat, asserted: seq<Formula>,
                                           guards: seq<Guard>, flips: seq<Flip>, checks: nat, terms: nat)
    requires Reliable(o) && |guards| == |flips| && guards != [] && Reachable(p, Dirs(flips))
    ensures Reachable(p, Dirs(Search(o, address, asserted, guards, flips, checks, terms).flips))
    decreases Unfrozen(flips)
  {
    if Conflict(o, checks, asserted, guards) {
      var c, k, r, guards1 := SearchRound(o, address, asserted, guards, flips, checks, terms,
                                          Search(o, address, asserted, guards, flips, checks, terms));
      CutReachable(p, flips, k, r);
      if r != [] {
        SearchReachable(p, o, address, asserted, guards1, r, checks + 1, terms + 1);
      }
    } else {
      SearchRests(o, address, asserted, guards, flips, checks, terms);
    }
  }

  /** The backtracking checker goes "else" first: the flips turned to "then" are the frozen
      ones. */
  ghost predicate ElseFirst(flips: seq<Flip>)
  {
    forall j :: 0 <= j < |flips| ==> (flips[j].frozen <==> flips[j].direction)
  }

  lemma TurnedElseFirst(flips: seq<Flip>, k: nat, r: seq<Flip>, m: nat)
    requires ElseFirst(flips) && TurnsAt(flips, k, r, m)
    ensures ElseFirst(r)
  {
    forall j | 0 <= j < m ensures r[j] == flips[j] {
      assert r[j] == r[..m][j] == flips[..m][j];
    }
  }

  lemma {:induction false} SearchElseFirst(o: Oracle, address: nat -> nat, asserted: seq<Formula>, guards: seq<Guard>,
                                           flips: seq<Flip>, checks: nat, terms: nat, target: SearchResult, left: nat)
    requires Reliable(o) && left == Unfrozen(flips) && |guards| == |flips| && guards != [] && ElseFirst(flips)
    requires SearchesTo(o, address, asserted, guards, flips, checks, terms, target)
    ensures ElseFirst(target.flips)
    decreases left
  {
    if Conflict(o, checks, asserted, guards) {
      var c, k, r, guards1 := SearchRound(o, address, asserted, guards, flips, checks, terms, target);
      if r != [] {
        TurnedElseFirst(flips, k, r, |r| - 1);
        SearchElseFirst(o, address, asserted, guards1, r, checks + 1, terms + 1, target, Unfrozen(r));
      }
    } else {
      SearchStops(o, address, asserted, guards, flips, checks, terms, target);
    }
  }

  lemma ElseFirstKept(o: Oracle, address: nat -> nat, asserted: seq<Formula>, guards: seq<Guard>, flips: seq<Flip>,
                      checks: nat, terms: nat)
    requires Reliable(o) && |guards| == |flips| && guards != [] && ElseFirst(flips)
    ensures ElseFirst(Search(o, address, asserted, guards, flips, checks, terms).flips)
  {
    SearchElseFirst(o, address, asserted, guards, flips, checks, terms,
                    Search(o, address, asserted, guards, flips, checks, terms), Unfrozen(flips));
  }
}
