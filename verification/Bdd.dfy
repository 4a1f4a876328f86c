/** Reduced ordered binary decision diagrams with reference counting. */
module Bdd {

  /** A node; its number is its position in the manager's list.  Nodes 0 and 1 are the
      constants.  A cleared child is -1. */
  datatype Node = Node(variable: nat, count: nat, low: int, high: int)

  type Key = (nat, nat, nat)

  /** Truth values of the variables. */
  type Env = nat -> bool

  predicate Live(nodes: seq<Node>, k: nat)
  {
    k < |nodes| && nodes[k].count > 0
  }

  predicate IsConstant(k: nat) { k < 2 }

  function KeyOf(n: Node): Key
    requires n.low >= 0 && n.high >= 0
  {
    (n.variable, n.low, n.high)
  }

  /** Position in the variable order; constants come after all variables. */
  function Level(nodes: seq<Node>, vars: nat, k: nat): nat
    requires k < |nodes|
  {
    if IsConstant(k) then vars + 1 else nodes[k].variable
  }

  /** An internal node has two different live children further down the order. */
  predicate Reduced(nodes: seq<Node>, vars: nat, k: nat)
    requires k < |nodes|
  {
    var n := nodes[k];
    && 0 <= n.low < k && 0 <= n.high < k && n.low != n.high
    && Live(nodes, n.low) && Live(nodes, n.high)
    && 1 <= n.variable <= vars
    && n.variable < Level(nodes, vars, n.low) && n.variable < Level(nodes, vars, n.high)
  }

  /** The live internal nodes are ordered and reduced, and the unique table lists
      exactly them, each under its own key. */
  ghost predicate WellFormed(nodes: seq<Node>, vars: nat, table: map<Key, nat>)
  {
    && |nodes| >= 2 && Live(nodes, 0) && Live(nodes, 1)
    && (vars > 0 ==> nodes[0].variable == vars + 1 && nodes[1].variable == vars + 1)
    && (forall k {:trigger Reduced(nodes, vars, k)} :: 2 <= k < |nodes| && Live(nodes, k) ==>
          Reduced(nodes, vars, k) && KeyOf(nodes[k]) in table && table[KeyOf(nodes[k])] == k)
    && (forall key :: key in table ==>
          var k := table[key];
          2 <= k < |nodes| && Live(nodes, k) && nodes[k].low >= 0 && nodes[k].high >= 0 && KeyOf(nodes[k]) == key)
  }

  /** The Boolean function of a node. */
  ghost predicate Denote(nodes: seq<Node>, k: nat, env: Env)
  {
    if IsConstant(k) then k == 1
    else if k < |nodes| && 0 <= nodes[k].low < k && 0 <= nodes[k].high < k then
      if env(nodes[k].variable) then Denote(nodes, nodes[k].high, env) else Denote(nodes, nodes[k].low, env)
    else false
  }

  function Set(env: Env, v: nat, b: bool): Env
  {
    (i: nat) => if i == v then b else env(i)
  }

  /** A node does not look at variables above it. */
  lemma {:induction false} Independent(nodes: seq<Node>, vars: nat, table: map<Key, nat>, k: nat, env: Env, v: nat,
                                       b: bool)
    requires WellFormed(nodes, vars, table) && Live(nodes, k) && v < Level(nodes, vars, k)
    ensures Denote(nodes, k, Set(env, v, b)) == Denote(nodes, k, env)
  {
    if !IsConstant(k) {
      assert Reduced(nodes, vars, k);
      Independent(nodes, vars, table, nodes[k].low, env, v, b);
      Independent(nodes, vars, table, nodes[k].high, env, v, b);
    }
  }

  ghost predicate SameFunction(nodes: seq<Node>, x: nat, y: nat)
  {
    forall env: Env :: Denote(nodes, x, env) == Denote(nodes, y, env)
  }

  lemma ConstantsDiffer(nodes: seq<Node>, x: nat, y: nat)
    requires IsConstant(x) && IsConstant(y) && x != y
    ensures !SameFunction(nodes, x, y)
  {
    var env: Env := i => true;
    assert Denote(nodes, x, env) != Denote(nodes, y, env);
  }

  /** Canonicity: live nodes with the same Boolean function are the same node. */
  lemma {:induction false} Canonical(nodes: seq<Node>, vars: nat, table: map<Key, nat>, x: nat, y: nat)
    requires WellFormed(nodes, vars, table) && Live(nodes, x) && Live(nodes, y)
    ensures SameFunction(nodes, x, y) <==> x == y
    decreases if x < y then y else x
  {
    if SameFunction(nodes, x, y) && x != y {
      if IsConstant(x) && IsConstant(y) {
        ConstantsDiffer(nodes, x, y);
      } else if Level(nodes, vars, x) < Level(nodes, vars, y) {
        Irrelevant(nodes, vars, table, x, y);
        assert Reduced(nodes, vars, x);
        Canonical(nodes, vars, table, nodes[x].low, nodes[x].high);
      } else if Level(nodes, vars, y) < Level(nodes, vars, x) {
        Irrelevant(nodes, vars, table, y, x);
        assert Reduced(nodes, vars, y);
        Canonical(nodes, vars, table, nodes[y].low, nodes[y].high);
      } else {
        assert Reduced(nodes, vars, x) || Reduced(nodes, vars, y);
        SameChildren(nodes, vars, table, x, y);
        Canonical(nodes, vars, table, nodes[x].low, nodes[y].low);
        Canonical(nodes, vars, table, nodes[x].high, nodes[y].high);
      }
    }
  }

  /** If `y` does not look at the variable of `x`, the children of `x` agree. */
  lemma Irrelevant(nodes: seq<Node>, vars: nat, table: map<Key, nat>, x: nat, y: nat)
    requires WellFormed(nodes, vars, table) && Live(nodes, x) && Live(nodes, y)
    requires Level(nodes, vars, x) < Level(nodes, vars, y) && SameFunction(nodes, x, y)
    ensures x >= 2 && Reduced(nodes, vars, x) && SameFunction(nodes, nodes[x].low, nodes[x].high)
  {
    assert y >= 2 ==> Reduced(nodes, vars, y);
    assert x >= 2 && Reduced(nodes, vars, x);
    var v := nodes[x].variable;
    forall env: Env ensures Denote(nodes, nodes[x].low, env) == Denote(nodes, nodes[x].high, env) {
      var env0, env1 := Set(env, v, false), Set(env, v, true);
      Independent(nodes, vars, table, nodes[x].low, env, v, false);
      Independent(nodes, vars, table, nodes[x].high, env, v, true);
      Independent(nodes, vars, table, y, env, v, false);
      Independent(nodes, vars, table, y, env, v, true);
      assert Denote(nodes, x, env0) == Denote(nodes, y, env0);
      assert Denote(nodes, x, env1) == Denote(nodes, y, env1);
    }
  }

  lemma SameChildren(nodes: seq<Node>, vars: nat, table: map<Key, nat>, x: nat, y: nat)
    requires WellFormed(nodes, vars, table) && Live(nodes, x) && Live(nodes, y)
    requires Level(nodes, vars, x) == Level(nodes, vars, y) && SameFunction(nodes, x, y)
    requires !(IsConstant(x) && IsConstant(y))
    ensures x >= 2 && y >= 2 && Reduced(nodes, vars, x) && Reduced(nodes, vars, y)
    ensures nodes[x].variable == nodes[y].variable
    ensures SameFunction(nodes, nodes[x].low, nodes[y].low) && SameFunction(nodes, nodes[x].high, nodes[y].high)
  {
    assert x >= 2 ==> Reduced(nodes, vars, x);
    assert y >= 2 ==> Reduced(nodes, vars, y);
    var v := nodes[x].variable;
    forall env: Env
      ensures Denote(nodes, nodes[x].low, env) == Denote(nodes, nodes[y].low, env)
      ensures Denote(nodes, nodes[x].high, env) == Denote(nodes, nodes[y].high, env)
    {
      var env0, env1 := Set(env, v, false), Set(env, v, true);
      Independent(nodes, vars, table, nodes[x].low, env, v, false);
      Independent(nodes, vars, table, nodes[y].low, env, v, false);
      Independent(nodes, vars, table, nodes[x].high, env, v, true);
      Independent(nodes, vars, table, nodes[y].high, env, v, true);
      assert Denote(nodes, x, env0) == Denote(nodes, y, env0);
      assert Denote(nodes, x, env1) == Denote(nodes, y, env1);
    }
  }

  // ---- Reference counts ------------------------------------------------------------

  /** How often live node `n` refers to node `x`. */
  function Refers(n: Node, x: nat): nat
  {
    if n.count == 0 then 0 else (if n.low == x then 1 else 0) + (if n.high == x then 1 else 0)
  }

  /** References to `x` from the live internal nodes. */
  function Edges(nodes: seq<Node>, x: nat): nat
  {
    if |nodes| <= 2 then 0 else Edges(nodes[..|nodes| - 1], x) + Refers(nodes[|nodes| - 1], x)
  }

  lemma {:induction false} EdgesUpdate(nodes: seq<Node>, k: nat, n: Node, x: nat)
    requires k < |nodes|
    ensures Edges(nodes[k := n], x) ==
      if k < 2 then Edges(nodes, x) else Edges(nodes, x) - Refers(nodes[k], x) + Refers(n, x)
  {
    if |nodes| > 2 {
      var front := nodes[..|nodes| - 1];
      if k == |nodes| - 1 {
        assert nodes[k := n][..k] == front;
      } else {
        assert nodes[k := n][..|nodes| - 1] == front[k := n];
        EdgesUpdate(front, k, n, x);
      }
    }
  }

  lemma {:induction false} EdgesPositive(nodes: seq<Node>, x: nat) returns (p: nat)
    requires Edges(nodes, x) > 0
    ensures 2 <= p < |nodes| && Live(nodes, p) && (nodes[p].low == x || nodes[p].high == x)
  {
    if Refers(nodes[|nodes| - 1], x) > 0 {
      p := |nodes| - 1;
    } else {
      p := EdgesPositive(nodes[..|nodes| - 1], x);
    }
  }

  lemma {:induction false} EdgeCounted(nodes: seq<Node>, p: nat, x: nat)
    requires 2 <= p < |nodes|
    ensures Edges(nodes, x) >= Refers(nodes[p], x)
  {
    if p < |nodes| - 1 {
      EdgeCounted(nodes[..|nodes| - 1], p, x);
    }
  }

  lemma EdgesAppend(nodes: seq<Node>, n: Node, x: nat)
    requires |nodes| >= 2
    ensures Edges(nodes + [n], x) == Edges(nodes, x) + Refers(n, x)
  {
    assert (nodes + [n])[..|nodes|] == nodes;
  }

  /** Every reference to a node is accounted for: by a handle or by a live parent. */
  ghost predicate Counted(nodes: seq<Node>, handles: multiset<nat>)
  {
    forall x: nat {:trigger CountIs(nodes, handles, x)} :: CountIs(nodes, handles, x)
  }

  ghost predicate CountIs(nodes: seq<Node>, handles: multiset<nat>, x: nat)
  {
    if x < |nodes| then nodes[x].count == handles[x] + Edges(nodes, x) else handles[x] == 0
  }

  /** The live nodes are still there, with the same variable and children. */
  ghost predicate Extends(nodes: seq<Node>, nodes': seq<Node>)
  {
    && |nodes| <= |nodes'|
    && forall k :: 0 <= k < |nodes| && Live(nodes, k) ==> Live(nodes', k) && (k >= 2 ==> SameNode(nodes[k], nodes'[k]))
  }

  ghost predicate SameNode(m: Node, n: Node)
  {
    m.variable == n.variable && m.low == n.low && m.high == n.high
  }

  /** As `Extends`, for those live nodes that survive. */
  ghost predicate Keeps(nodes: seq<Node>, nodes': seq<Node>)
  {
    && |nodes| <= |nodes'|
    && forall k :: 0 <= k < |nodes| && Live(nodes', k) ==> Live(nodes, k) && SameNode(nodes[k], nodes'[k])
  }

  lemma {:induction false} DenoteExtends(nodes: seq<Node>, vars: nat, table: map<Key, nat>, nodes': seq<Node>, k: nat,
                                         env: Env)
    requires WellFormed(nodes, vars, table) && Extends(nodes, nodes') && Live(nodes, k)
    ensures Denote(nodes', k, env) == Denote(nodes, k, env)
  {
    if !IsConstant(k) {
      assert Reduced(nodes, vars, k);
      DenoteExtends(nodes, vars, table, nodes', nodes[k].low, env);
      DenoteExtends(nodes, vars, table, nodes', nodes[k].high, env);
    }
  }

  lemma {:induction false} DenoteKeeps(nodes: seq<Node>, nodes': seq<Node>, vars: nat, table: map<Key, nat>, k: nat,
                                       env: Env)
    requires WellFormed(nodes', vars, table) && Keeps(nodes, nodes') && k < |nodes| && Live(nodes', k)
    ensures Denote(nodes', k, env) == Denote(nodes, k, env)
  {
    if !IsConstant(k) {
      assert Reduced(nodes', vars, k);
      DenoteKeeps(nodes, nodes', vars, table, nodes'[k].low, env);
      DenoteKeeps(nodes, nodes', vars, table, nodes'[k].high, env);
    }
  }

  /** If no handle has gone and surviving nodes are unchanged, all live nodes survive:
      each is held by a handle or, in the end, by an ancestor that is. */
  lemma {:induction false} HandlesKeepAlive(nodes: seq<Node>, vars: nat, table: map<Key, nat>, handles: multiset<nat>,
                                            nodes': seq<Node>, vars': nat, table': map<Key, nat>,
                                            handles': multiset<nat>, k: nat)
    requires WellFormed(nodes, vars, table) && Counted(nodes, handles)
    requires WellFormed(nodes', vars', table') && Counted(nodes', handles')
    requires handles <= handles' && |nodes| <= |nodes'|
    requires forall j :: 2 <= j < |nodes| && Live(nodes, j) && Live(nodes', j) ==> SameNode(nodes[j], nodes'[j])
    requires Live(nodes, k)
    ensures Live(nodes', k)
    decreases |nodes| - k
  {
    assert CountIs(nodes, handles, k) && CountIs(nodes', handles', k);
    if k in handles {
      assert handles'[k] > 0;
    } else {
      var p := EdgesPositive(nodes, k);
      assert Reduced(nodes, vars, p);
      HandlesKeepAlive(nodes, vars, table, handles, nodes', vars', table', handles', p);
      assert Reduced(nodes', vars', p);
    }
  }

  /** What all the temporaries leave behind extends what there was. */
  lemma Restored(nodes0: seq<Node>, vars: nat, table0: map<Key, nat>, handles0: multiset<nat>, nodes1: seq<Node>,
                 nodes: seq<Node>, table: map<Key, nat>, handles: multiset<nat>)
    requires WellFormed(nodes0, vars, table0) && Counted(nodes0, handles0)
    requires WellFormed(nodes, vars, table) && Counted(nodes, handles) && handles0 <= handles
    requires Extends(nodes0, nodes1) && Keeps(nodes1, nodes)
    ensures Extends(nodes0, nodes)
  {
    forall k | 0 <= k < |nodes0| && Live(nodes0, k) ensures Live(nodes, k) {
      HandlesKeepAlive(nodes0, vars, table0, handles0, nodes, vars, table, handles, k);
    }
  }

  lemma CombinedMeaning(f: (bool, bool) -> bool, x: nat, y: nat, v: nat, xl: nat, xh: nat, yl: nat, yh: nat, a: nat,
                        b: nat,
                        nodes0: seq<Node>, nodes1: seq<Node>, nodes: seq<Node>, vars: nat, table: map<Key, nat>, u: nat)
    requires Cofactors(nodes0, vars, x, v, xl, xh) && Cofactors(nodes0, vars, y, v, yl, yh)
    requires v == Level(nodes0, vars, x) || v == Level(nodes0, vars, y)
    requires forall env: Env ::
      Denote(nodes1, u, env) == var c, d := if env(v) then xh else xl, if env(v) then yh else yl;
                                f(Denote(nodes0, c, env), Denote(nodes0, d, env))
    requires WellFormed(nodes, vars, table) && Keeps(nodes1, nodes) && u < |nodes1| && Live(nodes, u)
    requires v <= Level(nodes1, vars, u)
    ensures Applied(f, x, y, nodes0, nodes, vars, u)
  {
    forall env: Env ensures Denote(nodes, u, env) == f(Denote(nodes0, x, env), Denote(nodes0, y, env)) {
      DenoteKeeps(nodes1, nodes, vars, table, u, env);
    }
  }

  /** The order and meaning of the result of `apply`. */
  ghost predicate Applied(f: (bool, bool) -> bool, x: nat, y: nat, nodes: seq<Node>, nodes': seq<Node>, vars: nat,
                          u: nat)
    requires x < |nodes| && y < |nodes|
  {
    && Live(nodes', u)
    && (Level(nodes', vars, u) >= Level(nodes, vars, x) || Level(nodes', vars, u) >= Level(nodes, vars, y))
    && forall env: Env :: Denote(nodes', u, env) == f(Denote(nodes, x, env), Denote(nodes, y, env))
  }

  /** `low` and `high` stand for node `x` with variable `v` fixed; `v` is not below `x`. */
  ghost predicate Cofactors(nodes: seq<Node>, vars: nat, x: nat, v: nat, low: nat, high: nat)
  {
    && Live(nodes, x) && Live(nodes, low) && Live(nodes, high)
    && 1 <= v <= vars && v <= Level(nodes, vars, x)
    && v < Level(nodes, vars, low) && v < Level(nodes, vars, high)
    && forall env: Env :: Denote(nodes, x, env) == Denote(nodes, if env(v) then high else low, env)
  }

  // ---- The manager -----------------------------------------------------------------

  class BDDManager {
    var varTable: seq<string>
    var nodes: seq<Node>
    var reverseMap: map<Key, nat>
    // the handles that exist outside the nodes; two of them belong to the manager
    ghost var handles: multiset<nat>

    ghost predicate Valid()
      reads this
    {
      && WellFormed(nodes, |varTable|, reverseMap)
      && Counted(nodes, handles)
      && handles[0] >= 1 && handles[1] >= 1
    }

    constructor ()
      ensures Valid() && varTable == [] && handles == multiset{0, 1}
    {
      varTable := [];
      nodes := [Node(0, 1, -1, -1), Node(1, 1, -1, -1)];
      reverseMap := map[];
      handles := multiset{0, 1};
      new;
      assert Edges(nodes, 0) == 0 && Edges(nodes, 1) == 0;
    }

    /** A new handle on a node. */
    method Share(k: nat)
      requires Valid() && Live(nodes, k)
      modifies this`nodes, this`handles
      ensures Valid() && handles == old(handles) + multiset{k} && |nodes| == |old(nodes)|
      ensures Extends(old(nodes), nodes) && Keeps(old(nodes), nodes)
    {
      var n := nodes[k].(count := nodes[k].count + 1);
      CountChange(nodes, k, n, handles, handles + multiset{k});
      WellFormedChange(nodes, k, n, |varTable|, reverseMap);
      nodes := nodes[k := n];
      handles := handles + multiset{k};
    }

    /** Give up a handle.  A node that loses its last reference leaves the unique table
        and gives up its children in turn. */
    method RemoveReference(k: nat)
      requires Valid() && k in handles && (IsConstant(k) ==> handles[k] > 1)
      modifies this`nodes, this`reverseMap, this`handles
      ensures Valid() && handles == old(handles) - multiset{k} && |nodes| == |old(nodes)|
      ensures Keeps(old(nodes), nodes)
      ensures forall j :: 0 <= j < |nodes| && old(nodes)[j].count == 0 ==> nodes[j] == old(nodes)[j]
      decreases k, 3
    {
      assert CountIs(nodes, handles, k);
      var n := nodes[k];
      if n.count > 1 {
        DropCount(k);
        return;
      }
      Release(k);
    }

    method Release(k: nat)
      requires Valid() && k in handles && Live(nodes, k) && nodes[k].count == 1 && !IsConstant(k)
      modifies this`nodes, this`reverseMap, this`handles
      ensures Valid() && handles == old(handles) - multiset{k} && |nodes| == |old(nodes)|
      ensures Keeps(old(nodes), nodes)
      ensures forall j :: 0 <= j < |nodes| && old(nodes)[j].count == 0 ==> nodes[j] == old(nodes)[j]
      decreases k, 2
    {
      ghost var low, high := Die(k);
      ClearChildren(k, low, high, old(handles) - multiset{k});
    }

    method ClearChildren(k: nat, ghost low: nat, ghost high: nat, ghost rest: multiset<nat>)
      requires Valid() && 2 <= k < |nodes| && nodes[k].count == 0 && nodes[k].low == low < k
      requires nodes[k].high == high < k
      requires handles == rest + multiset{low} + multiset{high} && rest[0] >= 1 && rest[1] >= 1
      modifies this`nodes, this`reverseMap, this`handles
      ensures Valid() && handles == rest && |nodes| == |old(nodes)|
      ensures Keeps(old(nodes), nodes)
      ensures forall j :: 0 <= j < |nodes| && j != k && old(nodes)[j].count == 0 ==> nodes[j] == old(nodes)[j]
      decreases k, 1
    {
      ChildHandles(rest, low, high);
      ClearLow(k, low);
      ClearHigh(k, high);
    }

    /** The handles inside a dead node. */
    method ClearLow(k: nat, ghost low: nat)
      requires Valid() && 2 <= k < |nodes| && nodes[k].count == 0 && nodes[k].low == low < k
      requires low in handles && (IsConstant(low) ==> handles[low] > 1)
      modifies this`nodes, this`reverseMap, this`handles
      ensures Valid() && handles == old(handles) - multiset{low} && |nodes| == |old(nodes)|
      ensures Keeps(old(nodes), nodes) && nodes[k].count == 0 && nodes[k].high == old(nodes[k].high)
      ensures forall j :: 0 <= j < |nodes| && j != k && old(nodes)[j].count == 0 ==> nodes[j] == old(nodes)[j]
      decreases k, 0
    {
      RemoveReference(nodes[k].low);
      ClearChild(k, nodes[k].(low := -1));
    }

    method ClearHigh(k: nat, ghost high: nat)
      requires Valid() && 2 <= k < |nodes| && nodes[k].count == 0 && nodes[k].high == high < k
      requires high in handles && (IsConstant(high) ==> handles[high] > 1)
      modifies this`nodes, this`reverseMap, this`handles
      ensures Valid() && handles == old(handles) - multiset{high} && |nodes| == |old(nodes)|
      ensures Keeps(old(nodes), nodes)
      ensures forall j :: 0 <= j < |nodes| && j != k && old(nodes)[j].count == 0 ==> nodes[j] == old(nodes)[j]
      decreases k, 0
    {
      RemoveReference(nodes[k].high);
      ClearChild(k, nodes[k].(high := -1));
    }

    method DropCount(k: nat)
      requires Valid() && k in handles && Live(nodes, k) && nodes[k].count > 1 && (IsConstant(k) ==> handles[k] > 1)
      modifies this`nodes, this`handles
      ensures Valid() && handles == old(handles) - multiset{k}
      ensures nodes == old(nodes)[k := old(nodes)[k].(count := old(nodes)[k].count - 1)]
    {
      var n := nodes[k].(count := nodes[k].count - 1);
      CountChange(nodes, k, n, handles, handles - multiset{k});
      WellFormedChange(nodes, k, n, |varTable|, reverseMap);
      nodes := nodes[k := n];
      handles := handles - multiset{k};
    }

    /** The last reference goes: the node leaves the unique table, and what it refers to
        is now held by the two handles in the dead node. */
    method Die(k: nat) returns (ghost low: nat, ghost high: nat)
      requires Valid() && k in handles && Live(nodes, k) && nodes[k].count == 1 && !IsConstant(k)
      modifies this`nodes, this`reverseMap, this`handles
      ensures Valid() && nodes == old(nodes)[k := old(nodes)[k].(count := 0)]
      ensures low == nodes[k].low < k && high == nodes[k].high < k
      ensures handles == old(handles) - multiset{k} + multiset{low} + multiset{high}
    {
      DieKeeps(nodes, k, |varTable|, reverseMap, handles);
      var n := nodes[k].(count := 0);
      nodes := nodes[k := n];
      reverseMap := reverseMap - {KeyOf(n)};
      handles := Released(handles, k, n);
      low, high := n.low, n.high;
    }

    /** The one constructor of nodes: reduce, share, or append. */
    method Mk(v: nat, low: nat, high: nat) returns (r: nat)
      requires Valid() && Live(nodes, low) && Live(nodes, high)
      requires 1 <= v <= |varTable| && v < Level(nodes, |varTable|, low) && v < Level(nodes, |varTable|, high)
      modifies this`nodes, this`reverseMap, this`handles
      ensures Valid() && handles == old(handles) + multiset{r} && Extends(old(nodes), nodes)
      ensures Live(nodes, r) && Level(nodes, |varTable|, r) >= v
      ensures forall env: Env :: Denote(nodes, r, env) == Denote(old(nodes), if env(v) then high else low, env)
    {
      if low == high {
        Share(low);
        r := low;
        DenotesBefore(old(nodes), |varTable|, old(reverseMap), nodes, r);
      } else if (v, low, high) in reverseMap {
        r := reverseMap[(v, low, high)];
        assert Reduced(nodes, |varTable|, r);
        Share(r);
        DenotesBefore(old(nodes), |varTable|, old(reverseMap), nodes, r);
      } else {
        r := Append(v, low, high);
        DenotesBefore(old(nodes), |varTable|, old(reverseMap), nodes, low);
        DenotesBefore(old(nodes), |varTable|, old(reverseMap), nodes, high);
      }
    }

    method Append(v: nat, low: nat, high: nat) returns (r: nat)
      requires Valid() && Live(nodes, low) && Live(nodes, high) && low != high
      requires (v, low, high) !in reverseMap
      requires 1 <= v <= |varTable| && v < Level(nodes, |varTable|, low) && v < Level(nodes, |varTable|, high)
      modifies this`nodes, this`reverseMap, this`handles
      ensures Valid() && handles == old(handles) + multiset{r} && Extends(old(nodes), nodes)
      ensures r == |old(nodes)| && |nodes| == r + 1 && nodes[r] == Node(v, 1, low, high)
    {
      Share(low);
      Share(high);
      r := |nodes|;
      AppendHeld(v, low, high, old(handles));
    }

    /** The two new handles on the children move into the node. */
    method AppendHeld(v: nat, low: nat, high: nat, ghost rest: multiset<nat>)
      requires Valid() && Live(nodes, low) && Live(nodes, high) && low != high && (v, low, high) !in reverseMap
      requires 1 <= v <= |varTable| && v < Level(nodes, |varTable|, low) && v < Level(nodes, |varTable|, high)
      requires handles == rest + multiset{low} + multiset{high} && rest[0] >= 1 && rest[1] >= 1
      modifies this`nodes, this`reverseMap, this`handles
      ensures Valid() && nodes == old(nodes) + [Node(v, 1, low, high)]
      ensures handles == rest + multiset{|old(nodes)|}
    {
      var n := Node(v, 1, low, high);
      AppendWellFormed(nodes, |varTable|, reverseMap, n);
      AppendCounted(nodes, |varTable|, reverseMap, rest, low, high, n);
      handles := rest + multiset{|nodes|};
      reverseMap := reverseMap[(v, low, high) := |nodes|];
      nodes := nodes + [n];
    }

    /** A new variable, last in the order. */
    method MakeVar(name: string) returns (r: nat)
      requires Valid()
      modifies this
      ensures Valid() && varTable == old(varTable) + [name]
      ensures handles == old(handles) + multiset{r} && Extends(old(nodes), nodes) && Live(nodes, r)
      ensures forall env: Env :: Denote(nodes, r, env) == env(|varTable|)
    {
      AddVariable(name);
      r := Mk(|varTable|, 0, 1);
    }

    /** The constants move down to make room. */
    method AddVariable(name: string)
      requires Valid()
      modifies this`varTable, this`nodes
      ensures Valid() && varTable == old(varTable) + [name] && Extends(old(nodes), nodes)
      ensures Live(nodes, 0) && Live(nodes, 1)
    {
      var v := |varTable| + 2;
      varTable := varTable + [name];
      MoveConstants(nodes, |varTable| - 1, reverseMap, handles);
      nodes := nodes[0 := nodes[0].(variable := v)][1 := nodes[1].(variable := v)];
    }

    /** Pointwise application of a Boolean operator. */
    method Apply(f: (bool, bool) -> bool, x: nat, y: nat) returns (u: nat)
      requires Valid() && Live(nodes, x) && Live(nodes, y)
      modifies this`nodes, this`reverseMap, this`handles
      ensures Valid() && handles == old(handles) + multiset{u} && Extends(old(nodes), nodes)
      ensures Applied(f, x, y, old(nodes), nodes, |varTable|, u)
      decreases x + y, 2
    {
      if IsConstant(x) && IsConstant(y) {
        u := if f(x == 1, y == 1) then 1 else 0;
        Share(u);
        return;
      }
      TopVariable(nodes, |varTable|, reverseMap, x, y);
      var v, xl, xh, yl, yh;
      if nodes[x].variable == nodes[y].variable {
        v, xl, xh, yl, yh := nodes[x].variable, nodes[x].low, nodes[x].high, nodes[y].low, nodes[y].high;
      } else if nodes[x].variable < nodes[y].variable {
        v, xl, xh, yl, yh := nodes[x].variable, nodes[x].low, nodes[x].high, y, y;
      } else {
        v, xl, xh, yl, yh := nodes[y].variable, x, x, nodes[y].low, nodes[y].high;
      }
      u := Combine(f, x, y, v, xl, xh, yl, yh);
    }

    /** The two recursive calls and the node above them.  The intermediate results are
        temporaries: their handles are given up at the end. */
    method Combine(f: (bool, bool) -> bool, x: nat, y: nat, v: nat, xl: nat, xh: nat, yl: nat, yh: nat) returns (u: nat)
      requires Valid() && Live(nodes, x) && Live(nodes, y)
      requires Cofactors(nodes, |varTable|, x, v, xl, xh) && Cofactors(nodes, |varTable|, y, v, yl, yh)
      requires xl + yl < x + y && xh + yh < x + y
      requires v == Level(nodes, |varTable|, x) || v == Level(nodes, |varTable|, y)
      modifies this`nodes, this`reverseMap, this`handles
      ensures Valid() && handles == old(handles) + multiset{u} && Extends(old(nodes), nodes)
      ensures Applied(f, x, y, old(nodes), nodes, |varTable|, u)
      decreases x + y, 1
    {
      ghost var nodes0, table0 := nodes, reverseMap;
      var a, b := ApplyTwice(f, v, xl, xh, yl, yh);
      u := Mk(v, a, b);
      ghost var nodes1 := nodes;
      Forget(a, b, old(handles) + multiset{u});
      assert handles == old(handles) + multiset{u};
      Restored(nodes0, |varTable|, table0, old(handles), nodes1, nodes, reverseMap, handles);
      assert CountIs(nodes, handles, u);
      CombinedMeaning(f, x, y, v, xl, xh, yl, yh, a, b, nodes0, nodes1, nodes, |varTable|, reverseMap, u);
    }

    method ApplyTwice(f: (bool, bool) -> bool, v: nat, xl: nat, xh: nat, yl: nat, yh: nat) returns (a: nat, b: nat)
      requires Valid() && Live(nodes, xl) && Live(nodes, xh) && Live(nodes, yl) && Live(nodes, yh)
      requires v < Level(nodes, |varTable|, xl) && v < Level(nodes, |varTable|, xh)
      requires v < Level(nodes, |varTable|, yl) && v < Level(nodes, |varTable|, yh)
      modifies this`nodes, this`reverseMap, this`handles
      ensures Valid() && handles == old(handles) + multiset{a} + multiset{b} && Extends(old(nodes), nodes)
      ensures Live(nodes, a) && Live(nodes, b)
      ensures v < Level(nodes, |varTable|, a) && v < Level(nodes, |varTable|, b)
      ensures forall env: Env :: Denote(nodes, a, env) == f(Denote(old(nodes), xl, env), Denote(old(nodes), yl, env))
      ensures forall env: Env :: Denote(nodes, b, env) == f(Denote(old(nodes), xh, env), Denote(old(nodes), yh, env))
      decreases 1 + if xl + yl > xh + yh then xl + yl else xh + yh, 0
    {
      a := Apply(f, xl, yl);
      ghost var nodes1, table1 := nodes, reverseMap;
      b := Apply(f, xh, yh);
      DenotesBefore(old(nodes), |varTable|, old(reverseMap), nodes1, xh);
      DenotesBefore(old(nodes), |varTable|, old(reverseMap), nodes1, yh);
      DenotesBefore(nodes1, |varTable|, table1, nodes, a);
    }

    /** Give up two temporaries. */
    method Forget(a: nat, b: nat, ghost rest: multiset<nat>)
      requires Valid() && handles == rest + multiset{a} + multiset{b} && rest[0] >= 1 && rest[1] >= 1
      modifies this`nodes, this`reverseMap, this`handles
      ensures Valid() && handles == rest && Keeps(old(nodes), nodes) && |nodes| == |old(nodes)|
    {
      ChildHandles(rest, b, a);
      RemoveReference(b);
      RemoveReference(a);
    }

    method Equal(x: nat, y: nat) returns (u: nat)
      requires Valid() && Live(nodes, x) && Live(nodes, y)
      modifies this`nodes, this`reverseMap, this`handles
      ensures Valid() && handles == old(handles) + multiset{u} && Extends(old(nodes), nodes)
      ensures Live(nodes, u) && forall env: Env ::
        Denote(nodes, u, env) == (Denote(old(nodes), x, env) <==> Denote(old(nodes), y, env))
    {
      u := Apply((a: bool, b: bool) => a == b, x, y);
    }

    method Xor(x: nat, y: nat) returns (u: nat)
      requires Valid() && Live(nodes, x) && Live(nodes, y)
      modifies this`nodes, this`reverseMap, this`handles
      ensures Valid() && handles == old(handles) + multiset{u} && Extends(old(nodes), nodes)
      ensures Live(nodes, u) && forall env: Env ::
        Denote(nodes, u, env) == (Denote(old(nodes), x, env) != Denote(old(nodes), y, env))
    {
      u := Apply((a: bool, b: bool) => a != b, x, y);
    }

    method Not(x: nat) returns (u: nat)
      requires Valid() && Live(nodes, x)
      modifies this`nodes, this`reverseMap, this`handles
      ensures Valid() && handles == old(handles) + multiset{u} && Extends(old(nodes), nodes)
      ensures Live(nodes, u) && forall env: Env :: Denote(nodes, u, env) == !Denote(old(nodes), x, env)
    {
      u := Xor(1, x);
    }

    method And(x: nat, y: nat) returns (u: nat)
      requires Valid() && Live(nodes, x) && Live(nodes, y)
      modifies this`nodes, this`reverseMap, this`handles
      ensures Valid() && handles == old(handles) + multiset{u} && Extends(old(nodes), nodes)
      ensures Live(nodes, u) && forall env: Env ::
        Denote(nodes, u, env) == (Denote(old(nodes), x, env) && Denote(old(nodes), y, env))
    {
      u := Apply((a: bool, b: bool) => a && b, x, y);
    }

    method Or(x: nat, y: nat) returns (u: nat)
      requires Valid() && Live(nodes, x) && Live(nodes, y)
      modifies this`nodes, this`reverseMap, this`handles
      ensures Valid() && handles == old(handles) + multiset{u} && Extends(old(nodes), nodes)
      ensures Live(nodes, u) && forall env: Env ::
        Denote(nodes, u, env) == (Denote(old(nodes), x, env) || Denote(old(nodes), y, env))
    {
      u := Apply((a: bool, b: bool) => a || b, x, y);
    }

    /** Two handles stand for the same Boolean function exactly if they are on the same
        node, whatever was built and given up before. */
    method IsSame(x: nat, y: nat) returns (same: bool)
      requires Valid() && x in handles && y in handles
      ensures same <==> SameFunction(nodes, x, y)
    {
      assert CountIs(nodes, handles, x) && CountIs(nodes, handles, y);
      Canonical(nodes, |varTable|, reverseMap, x, y);
      same := x == y;
    }

    method ClearChild(k: nat, n: Node)
      requires Valid() && 2 <= k < |nodes| && nodes[k].count == 0 && n.count == 0
      modifies this`nodes
      ensures Valid() && nodes == old(nodes)[k := n]
    {
      ChangeDead(nodes, k, |varTable|, reverseMap, handles, n);
      nodes := nodes[k := n];
    }
  }

  /** The handle on a dying node turns into handles on its children. */
  function Released(handles: multiset<nat>, k: nat, n: Node): multiset<nat>
    requires n.low >= 0 && n.high >= 0
  {
    var low: nat, high: nat := n.low, n.high;
    handles - multiset{k} + multiset{low} + multiset{high}
  }

  lemma DieKeeps(nodes: seq<Node>, k: nat, vars: nat, table: map<Key, nat>, handles: multiset<nat>)
    requires WellFormed(nodes, vars, table) && Counted(nodes, handles)
    requires 2 <= k < |nodes| && nodes[k].count == 1 && k in handles
    ensures 0 <= nodes[k].low < k && 0 <= nodes[k].high < k
    ensures var n := nodes[k].(count := 0);
      && WellFormed(nodes[k := n], vars, table - {KeyOf(n)})
      && Counted(nodes[k := n], Released(handles, k, n))
    ensures forall j :: j < 2 ==> Released(handles, k, nodes[k])[j] >= handles[j]
  {
    assert Reduced(nodes, vars, k);
    NoParents(nodes, k, handles);
    KillWellFormed(nodes, k, vars, table);
    KillCounted(nodes, k, handles);
  }

  /** Giving up two handles, one after the other. */
  lemma ChildHandles(rest: multiset<nat>, low: nat, high: nat)
    requires rest[0] >= 1 && rest[1] >= 1
    ensures rest + multiset{low} + multiset{high} == rest + multiset{high} + multiset{low}
    ensures rest + multiset{low} + multiset{high} - multiset{low} == rest + multiset{high}
    ensures rest + multiset{high} - multiset{high} == rest
    ensures (rest + multiset{low} + multiset{high})[low] > (if IsConstant(low) then 1 else 0)
    ensures (rest + multiset{high})[high] > (if IsConstant(high) then 1 else 0)
  {
  }

  /** A node with one reference, which is a handle, has no live parent. */
  lemma NoParents(nodes: seq<Node>, k: nat, handles: multiset<nat>)
    requires Counted(nodes, handles) && k < |nodes| && nodes[k].count == 1 && k in handles
    ensures Edges(nodes, k) == 0
    ensures forall p :: 2 <= p < |nodes| && Live(nodes, p) ==> nodes[p].low != k && nodes[p].high != k
  {
    assert CountIs(nodes, handles, k);
    forall p | 2 <= p < |nodes| && Live(nodes, p) ensures nodes[p].low != k && nodes[p].high != k {
      EdgeCounted(nodes, p, k);
    }
  }

  lemma KillWellFormed(nodes: seq<Node>, k: nat, vars: nat, table: map<Key, nat>)
    requires WellFormed(nodes, vars, table) && 2 <= k < |nodes| && Live(nodes, k) && Reduced(nodes, vars, k)
    requires forall p :: 2 <= p < |nodes| && Live(nodes, p) ==> nodes[p].low != k && nodes[p].high != k
    ensures var n := nodes[k].(count := 0);
      WellFormed(nodes[k := n], vars, table - {KeyOf(n)})
  {
    var n := nodes[k].(count := 0);
    var nodes', table' := nodes[k := n], table - {KeyOf(n)};
    forall j | 2 <= j < |nodes'| && Live(nodes', j)
      ensures Reduced(nodes', vars, j) && KeyOf(nodes'[j]) in table' && table'[KeyOf(nodes'[j])] == j
    {
      assert Reduced(nodes, vars, j);
    }
  }

  lemma KillCounted(nodes: seq<Node>, k: nat, handles: multiset<nat>)
    requires Counted(nodes, handles) && 2 <= k < |nodes| && nodes[k].count == 1 && k in handles && Edges(nodes, k) == 0
    requires 0 <= nodes[k].low < k && 0 <= nodes[k].high < k && nodes[k].low != nodes[k].high
    ensures var n := nodes[k].(count := 0); Counted(nodes[k := n], Released(handles, k, n))
  {
    var n := nodes[k].(count := 0);
    forall x: nat ensures Released(handles, k, n)[x] == handles[x] - (if x == k then 1 else 0) + Refers(nodes[k], x) {
      ReleasedAt(handles, k, nodes[k], x);
    }
    var nodes', handles' := nodes[k := n], Released(handles, k, n);
    forall x: nat ensures CountIs(nodes', handles', x) {
      assert CountIs(nodes, handles, x);
      EdgesUpdate(nodes, k, n, x);
    }
  }

  lemma ReleasedAt(handles: multiset<nat>, k: nat, n: Node, x: nat)
    requires k in handles && n.low >= 0 && n.high >= 0 && n.count > 0
    ensures Released(handles, k, n)[x] == handles[x] - (if x == k then 1 else 0) + Refers(n, x)
  {
  }

  /** Changing a count, but not from or to zero, changes no edge. */
  lemma CountChange(nodes: seq<Node>, k: nat, n: Node, handles: multiset<nat>, handles': multiset<nat>)
    requires Counted(nodes, handles) && k < |nodes| && SameNode(nodes[k], n)
    requires nodes[k].count > 0 && n.count > 0
    requires handles' == handles[k := handles'[k]] && n.count + handles[k] == nodes[k].count + handles'[k]
    ensures Counted(nodes[k := n], handles')
  {
    var nodes' := nodes[k := n];
    forall x: nat ensures CountIs(nodes', handles', x) {
      assert CountIs(nodes, handles, x);
      EdgesUpdate(nodes, k, n, x);
    }
  }

  lemma WellFormedChange(nodes: seq<Node>, k: nat, n: Node, vars: nat, table: map<Key, nat>)
    requires WellFormed(nodes, vars, table) && k < |nodes| && SameNode(nodes[k], n)
    requires nodes[k].count > 0 && n.count > 0
    ensures WellFormed(nodes[k := n], vars, table)
  {
    var nodes' := nodes[k := n];
    forall j ensures Live(nodes', j) <==> Live(nodes, j) {}
    forall j | 2 <= j < |nodes'| && Live(nodes', j)
      ensures Reduced(nodes', vars, j) && KeyOf(nodes'[j]) in table && table[KeyOf(nodes'[j])] == j
    {
      assert Reduced(nodes, vars, j);
    }
    forall key | key in table
      ensures var j := table[key];
        2 <= j < |nodes'| && Live(nodes', j) && nodes'[j].low >= 0 && nodes'[j].high >= 0 && KeyOf(nodes'[j]) == key
    {
      assert Live(nodes, table[key]);
    }
  }

  lemma DenotesBefore(nodes: seq<Node>, vars: nat, table: map<Key, nat>, nodes': seq<Node>, k: nat)
    requires WellFormed(nodes, vars, table) && Extends(nodes, nodes') && Live(nodes, k)
    ensures forall env: Env :: Denote(nodes', k, env) == Denote(nodes, k, env)
  {
    forall env: Env ensures Denote(nodes', k, env) == Denote(nodes, k, env) {
      DenoteExtends(nodes, vars, table, nodes', k, env);
    }
  }

  lemma AppendWellFormed(nodes: seq<Node>, vars: nat, table: map<Key, nat>, n: Node)
    requires WellFormed(nodes, vars, table) && n.count > 0
    requires 0 <= n.low < |nodes| && 0 <= n.high < |nodes| && n.low != n.high && KeyOf(n) !in table
    requires Live(nodes, n.low) && Live(nodes, n.high)
    requires 1 <= n.variable <= vars && n.variable < Level(nodes, vars, n.low)
    requires n.variable < Level(nodes, vars, n.high)
    ensures WellFormed(nodes + [n], vars, table[KeyOf(n) := |nodes|])
  {
    var nodes', table' := nodes + [n], table[KeyOf(n) := |nodes|];
    forall j | 2 <= j < |nodes'| && Live(nodes', j)
      ensures Reduced(nodes', vars, j) && KeyOf(nodes'[j]) in table' && table'[KeyOf(nodes'[j])] == j
    {
      if j < |nodes| {
        assert Reduced(nodes, vars, j);
      }
    }
    forall key | key in table'
      ensures var k := table'[key];
        2 <= k < |nodes'| && Live(nodes', k) && nodes'[k].low >= 0 && nodes'[k].high >= 0 && KeyOf(nodes'[k]) == key
    {
      if key != KeyOf(n) {
        assert key in table && Live(nodes, table[key]);
      }
    }
  }

  lemma NoEdgesPast(nodes: seq<Node>, vars: nat, table: map<Key, nat>)
    requires WellFormed(nodes, vars, table)
    ensures Edges(nodes, |nodes|) == 0
  {
    forall p | 2 <= p < |nodes| && Live(nodes, p) ensures nodes[p].low != |nodes| && nodes[p].high != |nodes| {
      assert Reduced(nodes, vars, p);
    }
    if Edges(nodes, |nodes|) > 0 {
      var p := EdgesPositive(nodes, |nodes|);
    }
  }

  /** A new node takes over two handles and is held by a third. */
  lemma AppendCounted(nodes: seq<Node>, vars: nat, table: map<Key, nat>, handles: multiset<nat>, low: nat, high: nat,
                      n: Node)
    requires WellFormed(nodes, vars, table) && Counted(nodes, handles + multiset{low} + multiset{high})
    requires n.count == 1 && n.low == low && n.high == high
    ensures Counted(nodes + [n], handles + multiset{|nodes|})
  {
    NoEdgesPast(nodes, vars, table);
    var nodes', handles' := nodes + [n], handles + multiset{|nodes|};
    forall x: nat ensures CountIs(nodes', handles', x) {
      assert CountIs(nodes, handles + multiset{low} + multiset{high}, x);
      EdgesAppend(nodes, n, x);
    }
  }

  /** The children of a dead node do not matter. */
  lemma ChangeDead(nodes: seq<Node>, k: nat, vars: nat, table: map<Key, nat>, handles: multiset<nat>, n: Node)
    requires WellFormed(nodes, vars, table) && Counted(nodes, handles) && 2 <= k < |nodes|
    requires nodes[k].count == 0 && n.count == 0
    ensures WellFormed(nodes[k := n], vars, table) && Counted(nodes[k := n], handles)
  {
    var nodes' := nodes[k := n];
    forall x: nat ensures CountIs(nodes', handles, x) {
      assert CountIs(nodes, handles, x);
      EdgesUpdate(nodes, k, n, x);
    }
    forall j ensures Live(nodes', j) <==> Live(nodes, j) {}
    forall j | 2 <= j < |nodes'| && Live(nodes', j)
      ensures Reduced(nodes', vars, j) && KeyOf(nodes'[j]) in table && table[KeyOf(nodes'[j])] == j
    {
      assert Reduced(nodes, vars, j);
    }
    forall key | key in table
      ensures var j := table[key];
        2 <= j < |nodes'| && Live(nodes', j) && nodes'[j].low >= 0 && nodes'[j].high >= 0 && KeyOf(nodes'[j]) == key
    {
      assert Live(nodes, table[key]);
    }
  }

  lemma MoveConstants(nodes: seq<Node>, vars: nat, table: map<Key, nat>, handles: multiset<nat>)
    requires WellFormed(nodes, vars, table) && Counted(nodes, handles)
    ensures var nodes' := nodes[0 := nodes[0].(variable := vars + 2)][1 := nodes[1].(variable := vars + 2)];
      WellFormed(nodes', vars + 1, table) && Counted(nodes', handles)
  {
    var nodes1 := nodes[0 := nodes[0].(variable := vars + 2)];
    var nodes' := nodes1[1 := nodes[1].(variable := vars + 2)];
    forall x: nat ensures CountIs(nodes', handles, x) {
      assert CountIs(nodes, handles, x);
      EdgesUpdate(nodes, 0, nodes1[0], x);
      EdgesUpdate(nodes1, 1, nodes'[1], x);
    }
    forall j | 2 <= j < |nodes'| && Live(nodes', j)
      ensures Reduced(nodes', vars + 1, j) && KeyOf(nodes'[j]) in table && table[KeyOf(nodes'[j])] == j
    {
      assert Reduced(nodes, vars, j);
    }
    forall key | key in table
      ensures var j := table[key];
        2 <= j < |nodes'| && Live(nodes', j) && nodes'[j].low >= 0 && nodes'[j].high >= 0 && KeyOf(nodes'[j]) == key
    {
      assert Live(nodes, table[key]);
    }
  }

  /** The variable fields compare like positions in the order. */
  lemma TopVariable(nodes: seq<Node>, vars: nat, table: map<Key, nat>, x: nat, y: nat)
    requires WellFormed(nodes, vars, table) && Live(nodes, x) && Live(nodes, y) && !(IsConstant(x) && IsConstant(y))
    ensures vars > 0 && nodes[x].variable == Level(nodes, vars, x) && nodes[y].variable == Level(nodes, vars, y)
    ensures nodes[x].variable <= nodes[y].variable ==> !IsConstant(x) && Reduced(nodes, vars, x)
    ensures nodes[y].variable <= nodes[x].variable ==> !IsConstant(y) && Reduced(nodes, vars, y)
  {
    assert !IsConstant(x) ==> Reduced(nodes, vars, x);
    assert !IsConstant(y) ==> Reduced(nodes, vars, y);
  }
}
